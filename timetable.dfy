/**
 * The time-slot and room assignment script scheduler.py: every request
 * becomes a variable whose domain lists (day, slot, room) triples with the
 * slots in order of preference, every two requests with different names
 * must not share a triple, and among the solutions the solver enumerates
 * the one with the least total slot rank ("earliness") is kept.
 */
module Timetable {
  import opened Wrappers
  import opened Sequences
  import opened RequestHandler
  import opened KeySort

  /** The slot ranking the script sorts and scores by: earlier is better. */
  const SlotOrder: seq<string> := ["9-11", "11-1", "1-3", "3-5", "5-7", "7-9"]

  /** `all_rooms`. */
  const AllRooms: seq<string> := ["Room1", "Room2"]

  /** `sys.maxsize` on a 64-bit build, the score the search starts from. */
  const MaxSize: int := 9223372036854775807

  /** A domain value: the script's `(day, time, room)` tuple. */
  datatype Slot = Slot(day: string, time: string, room: string)

  // ---------------------------------------------------------------- ranks

  /** Python's `s.index(x)`: the first position of `x`, or no value where `index` raises. */
  function IndexOf(s: seq<string>, x: string): (r: Option<nat>)
    ensures r.Some? <==> x in s
    ensures r.Some? ==> r.value < |s| && s[r.value] == x && x !in s[..r.value]
  {
    if s == [] then None
    else if s[0] == x then Some(0)
    else
      match IndexOf(s[1..], x)
      case None => None
      case Some(k) =>
        assert s[..k + 1] == [s[0]] + s[1..][..k];
        Some(k + 1)
  }

  predicate Ranked(slot: string)
  {
    slot in SlotOrder
  }

  predicate AllRanked(ts: seq<string>)
  {
    forall k :: 0 <= k < |ts| ==> Ranked(ts[k])
  }

  /** The sort key `SlotOrder.index(slot)` of a ranked slot. */
  function RankOf(slot: string): (k: nat)
    requires Ranked(slot)
    ensures k < |SlotOrder| && k <= 5 && SlotOrder[k] == slot
  {
    IndexOf(SlotOrder, slot).value
  }

  /** The key is injective: two ranked slots of one rank are the same slot. */
  lemma RankInjective(a: string, b: string)
    requires Ranked(a) && Ranked(b)
    ensures RankOf(a) == RankOf(b) <==> a == b
  {
  }

  /** The earliest slot, and only it, has rank 0. */
  lemma RankZero(slot: string)
    requires Ranked(slot)
    ensures RankOf(slot) == 0 <==> slot == "9-11"
  {
    if slot == "9-11" {
      assert SlotOrder[0] == slot;
    }
  }

  // ---------------------------------------------------------------- sorting

  /** The position of the first slot without a rank, where the sort key raises. */
  function FirstUnranked(ts: seq<string>): (r: Option<nat>)
    ensures r.None? <==> AllRanked(ts)
    ensures r.Some? ==> r.value < |ts| && !Ranked(ts[r.value]) && forall j :: 0 <= j < r.value ==> Ranked(ts[j])
  {
    if ts == [] then None
    else if !Ranked(ts[0]) then Some(0)
    else
      match FirstUnranked(ts[1..])
      case None => None
      case Some(k) => Some(k + 1)
  }

  /** The sort key as a total function: a ranked slot's rank, and 6, one past the last rank, for any other. */
  function SlotKey(slot: string): (k: nat)
    ensures k <= 6
    ensures k < 6 <==> Ranked(slot)
  {
    if Ranked(slot) then RankOf(slot) else 6
  }

  /** `sorted(ts, key=SlotOrder.index)` for ranked slots: a stable sort by rank. */
  function SortByRank(ts: seq<string>): seq<string>
    requires AllRanked(ts)
  {
    SortByKey(ts, SlotKey, 6)
  }

  predicate SortedByRank(ts: seq<string>)
  {
    AllRanked(ts) && forall i, j :: 0 <= i <= j < |ts| ==> RankOf(ts[i]) <= RankOf(ts[j])
  }

  /** The sort orders by rank and keeps every slot, as many times as it occurs. */
  lemma SortByRankSorts(ts: seq<string>)
    requires AllRanked(ts)
    ensures SortedByRank(SortByRank(ts))
    ensures multiset(SortByRank(ts)) == multiset(ts)
    ensures |SortByRank(ts)| == |ts|
  {
    assert KeysBelow(ts, SlotKey, 6);
    SortByKeySorts(ts, SlotKey, 6);
    var r := SortByRank(ts);
    forall k | 0 <= k < |r| ensures Ranked(r[k]) {
      assert r[k] in multiset(ts);
    }
  }

  datatype SlotError =
    | NotIterable           // `time_slots` is NaN, the value a preference missing from the table maps to
    | NotInList(slot: string) // the first slot the sort key finds no rank for

  /**
   * The `sorted(...)` call of line 20 on a request's `time_slots`: a missing
   * value cannot be iterated, and the first unranked slot makes the key
   * raise; otherwise the slots come back ordered by rank, none lost.
   */
  function SortSlots(timeSlots: Option<seq<string>>): (r: Result<seq<string>, SlotError>)
    ensures timeSlots.None? ==> r == Err(NotIterable)
    ensures timeSlots.Some? ==> (r.Ok? <==> AllRanked(timeSlots.value))
    ensures timeSlots.Some? && r.Err? ==> r.error == NotInList(timeSlots.value[FirstUnranked(timeSlots.value).value])
    ensures r.Ok? ==> SortedByRank(r.value) && multiset(r.value) == multiset(timeSlots.value)
  {
    match timeSlots
    case None => Err(NotIterable)
    case Some(ts) =>
      match FirstUnranked(ts)
      case Some(k) => Err(NotInList(ts[k]))
      case None =>
        SortByRankSorts(ts);
        Ok(SortByRank(ts))
  }

  /** Every slot of the preference table has a rank, so a request whose preference was found never makes the sort fail. */
  lemma TableSlotsRanked(name: string)
    requires name in TimeSlots()
    ensures AllRanked(TimeSlots()[name])
    ensures SortSlots(Some(TimeSlots()[name])).Ok?
  {
  }

  // ---------------------------------------------------------------- domains

  /** The triples the room loop appends for one day and slot. */
  function RoomRow(day: string, time: string, rooms: seq<string>): (row: seq<Slot>)
    ensures |row| == |rooms|
    ensures forall k :: 0 <= k < |rooms| ==> row[k] == Slot(day, time, rooms[k])
  {
    seq(|rooms|, k requires 0 <= k < |rooms| => Slot(day, time, rooms[k]))
  }

  /** The triples appended for one day: each slot in turn, with every room. */
  function DayBlock(day: string, ts: seq<string>): (block: seq<Slot>)
    ensures |block| == 2 * |ts|
  {
    if ts == [] then [] else DayBlock(day, ts[..|ts| - 1]) + RoomRow(day, ts[|ts| - 1], AllRooms)
  }

  /** The whole domain: each day in turn, with its block of slots and rooms. */
  function Layout(days: seq<string>, ts: seq<string>): seq<Slot>
  {
    if days == [] then [] else Layout(days[..|days| - 1], ts) + DayBlock(days[|days| - 1], ts)
  }

  lemma {:induction false} DayBlockAt(day: string, ts: seq<string>, t: nat, k: nat)
    requires t < |ts| && k < |AllRooms|
    ensures DayBlock(day, ts)[2 * t + k] == Slot(day, ts[t], AllRooms[k])
  {
    var init := ts[..|ts| - 1];
    if t < |ts| - 1 {
      DayBlockAt(day, init, t, k);
    }
  }

  lemma {:induction false} LayoutLength(days: seq<string>, ts: seq<string>)
    ensures |Layout(days, ts)| == |days| * |ts| * 2
  {
    if days != [] {
      LayoutLength(days[..|days| - 1], ts);
      assert |days| * |ts| * 2 == (|days| - 1) * |ts| * 2 + |ts| * 2;
    }
  }

  /** Triple (d, t, k) lies 2·t + k positions into the block of day d, which starts at d·n·2. */
  lemma Offset(d: nat, n: nat, t: nat, k: nat, base: nat, i: nat)
    requires base == d * n * 2 && i == (d * n + t) * 2 + k
    ensures i == base + (2 * t + k)
  {
  }

  /** Position `j` of day `d`'s block sits at `i`, just after the layout of the days before it. */
  lemma {:induction false} LayoutIndex(days: seq<string>, ts: seq<string>, d: nat, j: nat, i: nat)
    requires d < |days| && j < |DayBlock(days[d], ts)|
    requires i == |Layout(days[..d], ts)| + j
    ensures i < |Layout(days, ts)|
    ensures Layout(days, ts)[i] == DayBlock(days[d], ts)[j]
  {
    var init := days[..|days| - 1];
    if d < |days| - 1 {
      assert init[..d] == days[..d];
      LayoutIndex(init, ts, d, j, i);
    } else {
      assert init == days[..d];
    }
  }

  /** Position `i` is the `2·t + k`-th of day `d`'s block, counted after the days before it. */
  lemma PrefixPosition(days: seq<string>, ts: seq<string>, d: nat, t: nat, k: nat, i: nat)
    requires d < |days| && t < |ts| && k < 2
    requires i == (d * |ts| + t) * 2 + k
    ensures i == |Layout(days[..d], ts)| + (2 * t + k)
  {
    var pre := days[..d];
    LayoutLength(pre, ts);
    assert |pre| == d;
    Offset(d, |ts|, t, k, |Layout(pre, ts)|, i);
  }

  /**
   * The domain is laid out day by day, then slot by slot, Room1 before
   * Room2: the triple for day `d`, slot `t` and room `k` sits at
   * `(d·|ts| + t)·2 + k`.
   */
  lemma LayoutAt(days: seq<string>, ts: seq<string>, d: nat, t: nat, k: nat, i: nat)
    requires d < |days| && t < |ts| && k < |AllRooms|
    requires i == (d * |ts| + t) * 2 + k
    ensures i < |Layout(days, ts)| && Layout(days, ts)[i] == Slot(days[d], ts[t], AllRooms[k])
  {
    PrefixPosition(days, ts, d, t, k, i);
    DayBlockAt(days[d], ts, t, k);
    LayoutIndex(days, ts, d, 2 * t + k, i);
    IndexChain(Layout(days, ts), DayBlock(days[d], ts), i, 2 * t + k, Slot(days[d], ts[t], AllRooms[k]));
  }

  lemma {:induction false} DayBlockMembers(day: string, ts: seq<string>, x: Slot)
    ensures x in DayBlock(day, ts) <==> x.day == day && x.time in ts && x.room in AllRooms
  {
    if ts != [] {
      var init, last := ts[..|ts| - 1], ts[|ts| - 1];
      DayBlockMembers(day, init, x);
      assert ts == init + [last];
      if x in RoomRow(day, last, AllRooms) {
        var k :| 0 <= k < |AllRooms| && RoomRow(day, last, AllRooms)[k] == x;
      }
      if x.day == day && x.time == last && x.room in AllRooms {
        var k :| 0 <= k < |AllRooms| && AllRooms[k] == x.room;
        assert RoomRow(day, last, AllRooms)[k] == x;
      }
    }
  }

  /** A triple is in the domain exactly when its day, slot and room are among the request's. */
  lemma {:induction false} LayoutMembers(days: seq<string>, ts: seq<string>, x: Slot)
    ensures x in Layout(days, ts) <==> x.day in days && x.time in ts && x.room in AllRooms
  {
    if days != [] {
      var init, last := days[..|days| - 1], days[|days| - 1];
      LayoutMembers(init, ts, x);
      DayBlockMembers(last, ts, x);
      assert days == init + [last];
    }
  }

  /** Every slot of a domain built from ranked slots has a rank. */
  lemma DomainSlotsRanked(days: seq<string>, slots: seq<string>, x: Slot)
    requires AllRanked(slots)
    requires x in Layout(days, SortByRank(slots))
    ensures Ranked(x.time)
  {
    LayoutMembers(days, SortByRank(slots), x);
    SortByRankSorts(slots);
    var k :| 0 <= k < |SortByRank(slots)| && SortByRank(slots)[k] == x.time;
  }

  /** The domain `valid_slots` a request gets, or the error the sort raises on its first day. */
  function DomainOf(req: Request): Result<seq<Slot>, SlotError>
  {
    if req.days == [] then Ok([])
    else
      match SortSlots(req.timeSlots)
      case Err(e) => Err(e)
      case Ok(ts) => Ok(Layout(req.days, ts))
  }

  /** The innermost loop of lines 21-22: one triple per room for a day and slot. */
  method AppendRooms(acc: seq<Slot>, day: string, time: string) returns (r: seq<Slot>)
    ensures r == acc + RoomRow(day, time, AllRooms)
  {
    r := acc;
    for k := 0 to |AllRooms|
      invariant r == acc + RoomRow(day, time, AllRooms[..k])
    {
      assert RoomRow(day, time, AllRooms[..k + 1]) == RoomRow(day, time, AllRooms[..k]) + [Slot(day, time, AllRooms[k])];
      r := r + [Slot(day, time, AllRooms[k])];
    }
    assert AllRooms[..|AllRooms|] == AllRooms;
  }

  /** The loop of lines 20-22 for one day: its slots in the given order, each with every room. */
  method AppendDay(acc: seq<Slot>, day: string, ts: seq<string>) returns (r: seq<Slot>)
    ensures r == acc + DayBlock(day, ts)
  {
    r := acc;
    for t := 0 to |ts|
      invariant r == acc + DayBlock(day, ts[..t])
    {
      PrefixSnoc(ts, t);
      assert ts[..t + 1][..t] == ts[..t];
      AppendAssoc(acc, DayBlock(day, ts[..t]), RoomRow(day, ts[t], AllRooms));
      r := AppendRooms(r, day, ts[t]);
    }
    assert ts[..|ts|] == ts;
  }

  /**
   * Lines 15-22: the nested loops that fill `valid_slots`, sorting the
   * request's slots afresh for every day; the first sort that fails stops
   * the script.
   */
  method ValidSlots(req: Request) returns (r: Result<seq<Slot>, SlotError>)
    ensures req.days == [] ==> r == Ok([])
    ensures req.days != [] && SortSlots(req.timeSlots).Err? ==> r == Err(SortSlots(req.timeSlots).error)
    ensures SortSlots(req.timeSlots).Ok? ==> r == Ok(Layout(req.days, SortSlots(req.timeSlots).value))
  {
    var days := req.days;
    var validSlots: seq<Slot> := [];
    for d := 0 to |days|
      invariant d == 0 ==> validSlots == []
      invariant d > 0 ==> SortSlots(req.timeSlots).Ok?
      invariant SortSlots(req.timeSlots).Ok? ==> validSlots == Layout(days[..d], SortSlots(req.timeSlots).value)
    {
      var sorted := SortSlots(req.timeSlots);
      if sorted.Err? {
        return Err(sorted.error);
      }
      PrefixSnoc(days, d);
      assert days[..d + 1][..d] == days[..d];
      validSlots := AppendDay(validSlots, days[d], sorted.value);
    }
    assert days[..|days|] == days;
    return Ok(validSlots);
  }

  // ---------------------------------------------------------------- constraints

  /** `no_overlap`: two triples clash only when they agree on room, day and slot. */
  function NoOverlap(a: Slot, b: Slot): (r: bool)
    ensures r <==> a != b
  {
    a.room != b.room || a.day != b.day || a.time != b.time
  }

  /** The pairs the inner loop adds for `req1` against the first `j` requests. */
  function PairRowFor(requests: seq<Request>, req1: Request, j: nat): seq<(string, string)>
    requires j <= |requests|
  {
    if j == 0 then []
    else
      var req2 := requests[j - 1];
      PairRowFor(requests, req1, j - 1) + (if req1.name != req2.name then [(req1.name, req2.name)] else [])
  }

  /** The pairs the outer loop adds for the first `i` requests. */
  function OrderedPairs(requests: seq<Request>, i: nat): seq<(string, string)>
    requires i <= |requests|
  {
    if i == 0 then [] else OrderedPairs(requests, i - 1) + PairRowFor(requests, requests[i - 1], |requests|)
  }

  /** Lines 30-33: one `no_overlap` constraint per ordered pair of requests with different names, as name pairs. */
  method NoOverlapPairs(requests: seq<Request>) returns (pairs: seq<(string, string)>)
    ensures pairs == OrderedPairs(requests, |requests|)
  {
    pairs := [];
    for i := 0 to |requests|
      invariant pairs == OrderedPairs(requests, i)
    {
      var req1 := requests[i];
      ghost var before := pairs;
      for j := 0 to |requests|
        invariant pairs == before + PairRowFor(requests, req1, j)
      {
        var req2 := requests[j];
        if req1.name != req2.name {
          AppendAssoc(before, PairRowFor(requests, req1, j), [(req1.name, req2.name)]);
          pairs := pairs + [(req1.name, req2.name)];
        } else {
          assert PairRowFor(requests, req1, j + 1) == PairRowFor(requests, req1, j) + [];
        }
      }
    }
  }

  /** The pair of `req1` with the `b`-th request is in the row, at the position returned. */
  lemma {:induction false} PairRowComplete(requests: seq<Request>, req1: Request, j: nat, b: nat) returns (k: nat)
    requires b < j <= |requests| && req1.name != requests[b].name
    ensures k < |PairRowFor(requests, req1, j)| && PairRowFor(requests, req1, j)[k] == (req1.name, requests[b].name)
  {
    var prev := PairRowFor(requests, req1, j - 1);
    var req2 := requests[j - 1];
    var last := if req1.name != req2.name then [(req1.name, req2.name)] else [];
    assert PairRowFor(requests, req1, j) == prev + last;
    if b < j - 1 {
      k := PairRowComplete(requests, req1, j - 1, b);
    } else {
      k := |prev|;
    }
  }

  lemma {:induction false} PairRowSound(requests: seq<Request>, req1: Request, j: nat, p: (string, string)) returns (b: nat)
    requires j <= |requests| && p in PairRowFor(requests, req1, j)
    ensures b < j && req1.name != requests[b].name && p.0 == req1.name && p.1 == requests[b].name
  {
    var req2 := requests[j - 1];
    var last := if req1.name != req2.name then [(req1.name, req2.name)] else [];
    assert PairRowFor(requests, req1, j) == PairRowFor(requests, req1, j - 1) + last;
    if p in last {
      b := j - 1;
    } else {
      b := PairRowSound(requests, req1, j - 1, p);
    }
  }

  /** Every ordered pair of the first `i` requests with different names is among the pairs of the first `i` rows, at the position returned. */
  lemma {:induction false} OrderedPairsComplete(requests: seq<Request>, i: nat, a: nat, b: nat) returns (k: nat)
    requires i <= |requests| && a < i && b < |requests| && requests[a].name != requests[b].name
    ensures k < |OrderedPairs(requests, i)| && OrderedPairs(requests, i)[k] == (requests[a].name, requests[b].name)
  {
    var prev, row := OrderedPairs(requests, i - 1), PairRowFor(requests, requests[i - 1], |requests|);
    assert OrderedPairs(requests, i) == prev + row;
    var pair := (requests[a].name, requests[b].name);
    if a < i - 1 {
      k := OrderedPairsComplete(requests, i - 1, a, b);
      IndexChain(OrderedPairs(requests, i), prev, k, k, pair);
    } else {
      var r := PairRowComplete(requests, requests[i - 1], |requests|, b);
      k := |prev| + r;
      IndexChain(OrderedPairs(requests, i), row, k, r, pair);
    }
  }

  /** Every pair of the first `i` rows is an ordered pair of requests with different names, the first among the first `i`. */
  lemma {:induction false} OrderedPairsSound(requests: seq<Request>, i: nat, p: (string, string)) returns (a: nat, b: nat)
    requires i <= |requests| && p in OrderedPairs(requests, i)
    ensures a < i && b < |requests| && requests[a].name != requests[b].name
    ensures p.0 == requests[a].name && p.1 == requests[b].name
  {
    var prev, row := OrderedPairs(requests, i - 1), PairRowFor(requests, requests[i - 1], |requests|);
    assert OrderedPairs(requests, i) == prev + row;
    if p in row {
      a := i - 1;
      b := PairRowSound(requests, requests[i - 1], |requests|, p);
    } else {
      a, b := OrderedPairsSound(requests, i - 1, p);
    }
  }

  /** The constraints are exactly the ordered pairs of requests with different names. */
  lemma OrderedPairsMembers(requests: seq<Request>, p: (string, string))
    ensures p in OrderedPairs(requests, |requests|) <==>
            exists a, b :: 0 <= a < |requests| && 0 <= b < |requests| && requests[a].name != requests[b].name
                           && p == (requests[a].name, requests[b].name)
  {
    if p in OrderedPairs(requests, |requests|) {
      var a, b := OrderedPairsSound(requests, |requests|, p);
    }
    if exists a, b :: 0 <= a < |requests| && 0 <= b < |requests| && requests[a].name != requests[b].name
                      && p == (requests[a].name, requests[b].name) {
      var a, b :| 0 <= a < |requests| && 0 <= b < |requests| && requests[a].name != requests[b].name
                  && p == (requests[a].name, requests[b].name);
      var k := OrderedPairsComplete(requests, |requests|, a, b);
    }
  }

  /** One `no_overlap` constraint holds: both names are assigned and their triples differ. */
  predicate PairHolds(p: (string, string), sol: map<string, Slot>)
  {
    p.0 in sol && p.1 in sol && NoOverlap(sol[p.0], sol[p.1])
  }

  /** Every constraint of the list holds for a solution. */
  predicate Accepts(pairs: seq<(string, string)>, sol: map<string, Slot>)
  {
    pairs == [] || (PairHolds(pairs[0], sol) && Accepts(pairs[1..], sol))
  }

  /** A solution the constraints accept satisfies each constraint of the list. */
  lemma {:induction false} AcceptsAt(pairs: seq<(string, string)>, sol: map<string, Slot>, k: nat)
    requires Accepts(pairs, sol) && k < |pairs|
    ensures PairHolds(pairs[k], sol)
  {
    if k > 0 {
      AcceptsAt(pairs[1..], sol, k - 1);
    }
  }

  /** A solution the constraints accept gives any two requests with different names different triples. */
  lemma AcceptedSolutionsSeparate(requests: seq<Request>, sol: map<string, Slot>, a: nat, b: nat)
    requires Accepts(OrderedPairs(requests, |requests|), sol)
    requires a < |requests| && b < |requests| && requests[a].name != requests[b].name
    ensures requests[a].name in sol && requests[b].name in sol
    ensures sol[requests[a].name] != sol[requests[b].name]
  {
    var k := OrderedPairsComplete(requests, |requests|, a, b);
    AcceptsAt(OrderedPairs(requests, |requests|), sol, k);
  }

  // ---------------------------------------------------------------- score

  /** Every request is assigned, to a triple whose slot has a rank. */
  predicate Covers(requests: seq<Request>, sol: map<string, Slot>)
  {
    forall k :: 0 <= k < |requests| ==> requests[k].name in sol && Ranked(sol[requests[k].name].time)
  }

  /** `evaluate_solution`: the sum of the ranks of the slots the requests get, at most 5 per request. */
  function Score(requests: seq<Request>, sol: map<string, Slot>): (s: nat)
    requires Covers(requests, sol)
    ensures s <= 5 * |requests|
  {
    if requests == [] then 0
    else
      var last := requests[|requests| - 1];
      Score(requests[..|requests| - 1], sol) + RankOf(sol[last.name].time)
  }

  /** The score is 0 exactly when every request gets the earliest slot. */
  lemma {:induction false} ScoreZero(requests: seq<Request>, sol: map<string, Slot>)
    requires Covers(requests, sol)
    ensures Score(requests, sol) == 0 <==> forall k :: 0 <= k < |requests| ==> sol[requests[k].name].time == "9-11"
  {
    if requests != [] {
      var init, last := requests[..|requests| - 1], requests[|requests| - 1];
      ScoreZero(init, sol);
      RankZero(sol[last.name].time);
      assert forall k :: 0 <= k < |init| ==> init[k] == requests[k];
    }
  }

  /** A solution drawn from the requests' domains, with every preference found, covers the requests. */
  lemma DomainSolutionsCover(requests: seq<Request>, sol: map<string, Slot>)
    requires forall k :: 0 <= k < |requests| ==>
               && requests[k].timeSlots.Some? && AllRanked(requests[k].timeSlots.value)
               && requests[k].name in sol
               && sol[requests[k].name] in Layout(requests[k].days, SortByRank(requests[k].timeSlots.value))
    ensures Covers(requests, sol)
  {
    forall k | 0 <= k < |requests| ensures Ranked(sol[requests[k].name].time) {
      DomainSlotsRanked(requests[k].days, requests[k].timeSlots.value, sol[requests[k].name]);
    }
  }

  // ---------------------------------------------------------------- best solution

  /** The best solution kept so far and its score. */
  datatype Choice<T> = Choice(best: Option<T>, score: int)

  predicate AllCover(requests: seq<Request>, solutions: seq<map<string, Slot>>)
  {
    forall k :: 0 <= k < |solutions| ==> Covers(requests, solutions[k])
  }

  /** The score of each solution, in order. */
  function Scores(requests: seq<Request>, solutions: seq<map<string, Slot>>): (scores: seq<int>)
    requires AllCover(requests, solutions)
    ensures |scores| == |solutions|
    ensures forall k :: 0 <= k < |solutions| ==> scores[k] == Score(requests, solutions[k])
  {
    seq(|solutions|, k requires 0 <= k < |solutions| => Score(requests, solutions[k]))
  }

  /**
   * What the search keeps after seeing `items` in order, each with its score:
   * it starts from no item and `MaxSize`, and an item replaces the kept one
   * only when its score is strictly lower.
   */
  function Keep<T>(items: seq<T>, scores: seq<int>): Choice<T>
    requires |scores| == |items|
  {
    if items == [] then Choice(None, MaxSize)
    else
      var n := |items|;
      var kept := Keep(items[..n - 1], scores[..n - 1]);
      if scores[n - 1] < kept.score then Choice(Some(items[n - 1]), scores[n - 1]) else kept
  }

  /** The kept score is never above `MaxSize` and never above the score of any item seen. */
  lemma {:induction false} KeepIsLeast<T>(items: seq<T>, scores: seq<int>, k: nat)
    requires |scores| == |items| && k < |items|
    ensures Keep(items, scores).score <= MaxSize
    ensures Keep(items, scores).score <= scores[k]
  {
    var n := |items|;
    if k < n - 1 {
      KeepIsLeast(items[..n - 1], scores[..n - 1], k);
    } else if n > 1 {
      KeepIsLeast(items[..n - 1], scores[..n - 1], 0);
    }
  }

  /** With no item kept the score is still `MaxSize`; with one kept it is below. */
  lemma {:induction false} KeepNone<T>(items: seq<T>, scores: seq<int>)
    requires |scores| == |items|
    ensures Keep(items, scores).best.None? ==> Keep(items, scores).score == MaxSize
    ensures Keep(items, scores).best.Some? ==> Keep(items, scores).score < MaxSize
  {
    if items != [] {
      var n := |items|;
      KeepNone(items[..n - 1], scores[..n - 1]);
    }
  }

  /**
   * A kept item is one of those seen, its score is the kept score, and every
   * item before it scored strictly more: the first item with the least score
   * is the one kept.
   */
  lemma {:induction false} KeepIsFirstLeast<T>(items: seq<T>, scores: seq<int>) returns (at: nat)
    requires |scores| == |items|
    requires Keep(items, scores).best.Some?
    ensures at < |items| && Keep(items, scores).best.value == items[at]
    ensures Keep(items, scores).score == scores[at]
    ensures forall j :: 0 <= j < at ==> scores[j] > Keep(items, scores).score
  {
    var n := |items|;
    var init, initScores := items[..n - 1], scores[..n - 1];
    if scores[n - 1] < Keep(init, initScores).score {
      at := n - 1;
      forall j | 0 <= j < n - 1 ensures scores[j] > Keep(items, scores).score {
        KeepIsLeast(init, initScores, j);
      }
    } else {
      at := KeepIsFirstLeast(init, initScores);
    }
  }

  /** Once an item below `MaxSize` has been seen, one is kept. */
  lemma {:induction false} KeepFindsOne<T>(items: seq<T>, scores: seq<int>)
    requires |scores| == |items|
    requires items != [] && scores[|items| - 1] < MaxSize
    ensures Keep(items, scores).best.Some?
  {
    var n := |items|;
    KeepNone(items[..n - 1], scores[..n - 1]);
  }

  /** Every score is below `MaxSize` when there are fewer than `MaxSize / 5` requests, so the search always keeps a solution. */
  lemma SolutionsFound(requests: seq<Request>, solutions: seq<map<string, Slot>>)
    requires AllCover(requests, solutions)
    requires solutions != [] && 5 * |requests| < MaxSize
    ensures Keep(solutions, Scores(requests, solutions)).best.Some?
  {
    KeepFindsOne(solutions, Scores(requests, solutions));
  }

  /**
   * Lines 41-54 over the solutions the solver yields, in order, as `Keep`
   * describes them; the time limit only stops the loop early, which is the
   * same as passing a shorter sequence.
   */
  method SelectBest(requests: seq<Request>, solutions: seq<map<string, Slot>>)
      returns (best: Option<map<string, Slot>>, bestScore: int, checked: nat)
    requires AllCover(requests, solutions)
    ensures checked == |solutions|
    ensures Choice(best, bestScore) == Keep(solutions, Scores(requests, solutions))
  {
    ghost var scores := Scores(requests, solutions);
    best, bestScore, checked := None, MaxSize, 0;
    while checked < |solutions|
      invariant checked <= |solutions|
      invariant Choice(best, bestScore) == Keep(solutions[..checked], scores[..checked])
    {
      var solution := solutions[checked];
      var currentScore := Score(requests, solution);
      assert solutions[..checked + 1][..checked] == solutions[..checked];
      assert scores[..checked + 1][..checked] == scores[..checked];
      if currentScore < bestScore {
        best, bestScore := Some(solution), currentScore;
      }
      checked := checked + 1;
    }
    assert solutions[..checked] == solutions;
    assert scores[..checked] == scores;
  }

  // ---------------------------------------------------------------- the variables

  /** Why the loop of lines 14-24 stops: a request's slots cannot be sorted, or `addVariable` refuses a name already added. */
  datatype BuildError = SlotsFailed(cause: SlotError) | DuplicateVariable(name: string)

  /**
   * The error the turn for request `k` raises, if any: its domain is built
   * first, so a failing sort comes before the duplicate-name check.
   */
  function TurnError(requests: seq<Request>, k: nat): (e: Option<BuildError>)
    requires k < |requests|
    ensures e.None? <==> DomainOf(requests[k]).Ok? && forall j :: 0 <= j < k ==> requests[j].name != requests[k].name
  {
    if DomainOf(requests[k]).Err? then Some(SlotsFailed(DomainOf(requests[k]).error))
    else if exists j :: 0 <= j < k && requests[j].name == requests[k].name then Some(DuplicateVariable(requests[k].name))
    else None
  }

  /**
   * Lines 14-24: every request's domain in turn, added as a variable named
   * after the request, in request order. The run goes through exactly when
   * every domain can be built and the names are distinct; otherwise the
   * first request whose turn fails stops the script with that turn's error.
   */
  method BuildVariables(requests: seq<Request>) returns (r: Result<seq<(string, seq<Slot>)>, BuildError>)
    ensures r.Ok? <==> && (forall k :: 0 <= k < |requests| ==> DomainOf(requests[k]).Ok?)
                       && (forall i, j :: 0 <= i < j < |requests| ==> requests[i].name != requests[j].name)
    ensures r.Ok? ==> |r.value| == |requests|
    ensures r.Ok? ==> forall k :: 0 <= k < |requests| ==> r.value[k] == (requests[k].name, DomainOf(requests[k]).value)
    ensures r.Err? ==> exists k :: 0 <= k < |requests| && TurnError(requests, k) == Some(r.error)
                                   && forall j :: 0 <= j < k ==> TurnError(requests, j).None?
  {
    var vars: seq<(string, seq<Slot>)> := [];
    var names: set<string> := {};  // the variables the problem holds so far
    for i := 0 to |requests|
      invariant |vars| == i
      invariant forall k :: 0 <= k < i ==> TurnError(requests, k).None? && vars[k] == (requests[k].name, DomainOf(requests[k]).value)
      invariant names == set k | 0 <= k < i :: requests[k].name
    {
      var validSlots := ValidSlots(requests[i]);
      if validSlots.Err? {
        assert DomainOf(requests[i]) == Err(validSlots.error);
        assert TurnError(requests, i) == Some(SlotsFailed(validSlots.error));
        return Err(SlotsFailed(validSlots.error));
      }
      if requests[i].name in names {
        var j :| 0 <= j < i && requests[j].name == requests[i].name;
        assert TurnError(requests, i) == Some(DuplicateVariable(requests[i].name));
        return Err(DuplicateVariable(requests[i].name));
      }
      assert TurnError(requests, i).None?;
      vars := vars + [(requests[i].name, validSlots.value)];
      names := names + {requests[i].name};
    }
    return Ok(vars);
  }
}
