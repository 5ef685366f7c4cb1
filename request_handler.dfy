/**
 * Request normalisation, as done by `handle` in request_handler.py and by
 * `load_requests` in its copy prototype/request_handler.py: the weekday
 * column is split into lower-case day codes, the preference column is
 * defaulted, lowercased and looked up in the slot table, and (in the
 * prototype) the file suffix picks the reader. The two copies share this
 * logic, so one model covers both.
 */
module RequestHandler {
  import opened Wrappers
  import opened Strings

  /** The seven day codes `parse_days("all")` returns, Monday first. */
  const Weekdays: seq<string> := ["mon", "tue", "wed", "thu", "fri", "sat", "sun"]

  /** A day code as `parse_days` leaves it: no comma, no upper-case letter, no whitespace at either end. */
  predicate IsCleanDay(d: string)
  {
    && ',' !in d
    && (forall k :: 0 <= k < |d| ==> !IsUpper(d[k]))
    && (d != [] ==> !IsSpace(d[0]) && !IsSpace(d[|d| - 1]))
  }

  /**
   * `parse_days`: the literal "all" (compared before any lowercasing) gives
   * the seven days; anything else gives one clean day code per
   * comma-separated piece.
   */
  function ParseDays(daysStr: string): (days: seq<string>)
    ensures daysStr == "all" ==> days == Weekdays
    ensures daysStr != "all" ==> |days| == Count(daysStr, ',') + 1
    ensures forall k :: 0 <= k < |days| ==> IsCleanDay(days[k])
    ensures daysStr != "all" ==> forall k :: 0 <= k < |days| ==> days[k] == CleanPiece(Split(daysStr, ',')[k])
  {
    if daysStr == "all" then Weekdays
    else
      var pieces := Split(daysStr, ',');
      seq(|pieces|, k requires 0 <= k < |pieces| => CleanPiece(pieces[k]))
  }

  /**
   * `day.strip().lower()` for one comma-free piece: a slice of the piece,
   * lowercased, where everything cut off is whitespace. With `IsCleanDay`
   * that slice is unique (`CleanPieceUnique`).
   */
  function CleanPiece(piece: string): (d: string)
    requires ',' !in piece
    ensures IsCleanDay(d)
    ensures |d| <= |piece|
    ensures exists i, j :: && 0 <= i <= j <= |piece| && d == Lower(piece[i..j])
                           && (forall k :: 0 <= k < i || j <= k < |piece| ==> IsSpace(piece[k]))
  {
    LowerOfStripIsClean(piece);
    StripIsSpacedSlice(piece);
    Lower(Strip(piece))
  }

  /** `strip()` is a slice of the piece that only cuts whitespace off. */
  lemma StripIsSpacedSlice(piece: string)
    ensures exists i, j :: && 0 <= i <= j <= |piece| && Lower(Strip(piece)) == Lower(piece[i..j])
                           && (forall k :: 0 <= k < i || j <= k < |piece| ==> IsSpace(piece[k]))
  {
    var i, j := StripSlice(piece);
    assert Lower(Strip(piece)) == Lower(piece[i..j]);
  }

  /**
   * Any slice that cuts off only whitespace and neither starts nor ends with
   * whitespace is the one `strip()` keeps: its lowercasing is `CleanPiece`.
   */
  lemma CleanPieceUnique(piece: string, i: nat, j: nat)
    requires ',' !in piece
    requires i <= j <= |piece|
    requires forall k :: 0 <= k < i || j <= k < |piece| ==> IsSpace(piece[k])
    requires i < j ==> !IsSpace(piece[i]) && !IsSpace(piece[j - 1])
    ensures CleanPiece(piece) == Lower(piece[i..j])
  {
    var i', j' := StripSlice(piece);
    var s := Strip(piece);
    if i < j {
      assert s[0] == piece[i'] && s[|s| - 1] == piece[j' - 1];
    }
  }

  /**
   * Two words, each padded by a space, around one comma (" Mon , Tue ", say)
   * parse to the two words lowercased.
   */
  lemma PaddedDays(first: string, second: string)
    requires first != [] && ',' !in first && !IsSpace(first[0]) && !IsSpace(first[|first| - 1])
    requires second != [] && ',' !in second && !IsSpace(second[0]) && !IsSpace(second[|second| - 1])
    ensures ParseDays([' '] + first + [' ', ',', ' '] + second + [' ']) == [Lower(first), Lower(second)]
  {
    var a, b := [' '] + first + [' '], [' '] + second + [' '];
    var cell := [' '] + first + [' ', ',', ' '] + second + [' '];
    assert Split(cell, ',') == [a, b] by {
      assert cell == a + [','] + b;
      assert Join([a, b], ',') == cell;
      SplitJoin([a, b], ',');
    }
    assert cell != "all" by { assert |cell| > 3; }
    assert ParseDays(cell) == [CleanPiece(a), CleanPiece(b)];
    PaddedPiece(first);
    PaddedPiece(second);
  }

  /** A word padded with one space on each side cleans to the lowercased word. */
  lemma PaddedPiece(word: string)
    requires word != [] && ',' !in word && !IsSpace(word[0]) && !IsSpace(word[|word| - 1])
    ensures CleanPiece([' '] + word + [' ']) == Lower(word)
  {
    var piece := [' '] + word + [' '];
    CleanPieceUnique(piece, 1, |word| + 1);
    assert piece[1..|word| + 1] == word;
  }

  lemma LowerOfStripIsClean(piece: string)
    requires ',' !in piece
    ensures IsCleanDay(Lower(Strip(piece)))
    ensures |Lower(Strip(piece))| <= |piece|
  {
    var s := Strip(piece);
    var i, j := StripSlice(piece);
    forall k | 0 <= k < |Lower(s)| ensures Lower(s)[k] != ',' {
      assert s[k] == piece[i + k];
    }
    LowerKeepsEnds(s);
  }

  /** Lowercasing keeps a string free of whitespace at either end. */
  lemma LowerKeepsEnds(s: string)
    requires s != [] ==> !IsSpace(s[0]) && !IsSpace(s[|s| - 1])
    ensures Lower(s) != [] ==> !IsSpace(Lower(s)[0]) && !IsSpace(Lower(s)[|Lower(s)| - 1])
  {
    if s != [] {
      var n := |s| - 1;
      LowerKeepsSpace(s[0]);
      LowerKeepsSpace(s[n]);
    }
  }

  /** Lowercasing a character never turns whitespace into non-whitespace or back. */
  lemma LowerKeepsSpace(c: char)
    ensures IsSpace(LowerChar(c)) <==> IsSpace(c)
  {
  }

  /** A string with no whitespace at either end is its own `strip()`. */
  lemma StripOfTrimmed(d: string)
    requires d != [] ==> !IsSpace(d[0]) && !IsSpace(d[|d| - 1])
    ensures Strip(d) == d
  {
    assert TrimLeft(d) == d;
    assert TrimRight(d) == d;
  }

  /** A clean day code is what `strip().lower()` gives back for it. */
  lemma CleanPieceOfClean(d: string)
    requires IsCleanDay(d)
    ensures CleanPiece(d) == d
  {
    StripOfTrimmed(d);
  }

  /** A string without a comma splits into itself alone. */
  lemma SplitWithoutComma(s: string)
    requires ',' !in s
    ensures Split(s, ',') == [s]
  {
    SplitPrefix(s, "", ',');
    assert s + "" == s;
  }

  /**
   * Joining clean day codes with commas and parsing the result gives the
   * codes back, unless the join happens to be the literal "all".
   */
  lemma {:induction false} ParseDaysOfJoin(days: seq<string>)
    requires |days| >= 1
    requires forall k :: 0 <= k < |days| ==> IsCleanDay(days[k])
    requires Join(days, ',') != "all"
    ensures ParseDays(Join(days, ',')) == days
  {
    SplitJoin(days, ',');
    var r := ParseDays(Join(days, ','));
    forall k | 0 <= k < |days| ensures r[k] == days[k] {
      CleanPieceOfClean(days[k]);
    }
  }

  /** Parsing is idempotent on its own output: re-joining and re-parsing the days changes nothing. */
  lemma ParseDaysIdempotent(daysStr: string)
    requires Join(ParseDays(daysStr), ',') != "all"
    ensures ParseDays(Join(ParseDays(daysStr), ',')) == ParseDays(daysStr)
  {
    ParseDaysOfJoin(ParseDays(daysStr));
  }

  /** The "all" test is case-sensitive and comes before lowercasing: "ALL" is one day code "all". */
  lemma UpperAllIsOneDay()
    ensures ParseDays("ALL") == ["all"]
  {
    assert "ALL" != "all" by { assert "ALL"[0] != "all"[0]; }
    SplitWithoutComma("ALL");
    StripOfTrimmed("ALL");
    assert Lower("ALL") == "all";
  }

  // ---------------------------------------------------------------- time slots

  /**
   * The preference table `TIME_SLOTS`: four names, and "all" is every slot of
   * the other three except the last evening one.
   */
  function TimeSlots(): (table: map<string, seq<string>>)
    ensures table.Keys == {"morning", "afternoon", "evening", "all"}
    ensures forall name :: name in table ==> |table[name]| >= 2
    ensures table["all"] == table["morning"] + table["afternoon"] + table["evening"][..|table["evening"]| - 1]
  {
    map[
      "morning" := ["9-11", "11-1"],
      "afternoon" := ["1-3", "3-5"],
      "evening" := ["5-7", "7-9"],
      "all" := ["9-11", "11-1", "1-3", "3-5", "5-7"]
    ]
  }

  /**
   * The `pref` column mapped to slots: a missing value becomes "all", the
   * name is lowercased, and a name the table lacks maps to no value.
   */
  function SlotsForPref(pref: Option<string>): (slots: Option<seq<string>>)
    ensures slots.Some? <==> Lower(if pref.Some? then pref.value else "all") in TimeSlots()
    ensures slots.Some? ==> slots.value == TimeSlots()[Lower(if pref.Some? then pref.value else "all")]
  {
    var name := Lower(if pref.Some? then pref.value else "all");
    if name in TimeSlots() then Some(TimeSlots()[name]) else None
  }

  /** Lowercasing twice is lowercasing once. */
  lemma LowerIdempotent(s: string)
    ensures Lower(Lower(s)) == Lower(s)
  {
  }

  /** The lookup ignores the case of the preference name. */
  lemma SlotsIgnoreCase(name: string)
    ensures SlotsForPref(Some(name)) == SlotsForPref(Some(Lower(name)))
  {
    LowerIdempotent(name);
  }

  /** A missing preference gets the five slots from 9-11 to 5-7; the evening slot 7-9 is not among them. */
  lemma MissingPrefIsAllButLateEvening()
    ensures SlotsForPref(None) == Some(["9-11", "11-1", "1-3", "3-5", "5-7"])
    ensures "7-9" !in SlotsForPref(None).value
  {
    assert Lower("all") == "all";
  }

  /** "Morning" is lowercased before the lookup and so finds the morning slots. */
  lemma CapitalisedMorning()
    ensures SlotsForPref(Some("Morning")) == Some(["9-11", "11-1"])
  {
    assert Lower("Morning") == "morning";
  }

  /** A name that is not a key of the table, in any case, maps to no value. */
  lemma UnknownPrefHasNoSlots(name: string)
    requires Lower(name) !in TimeSlots()
    ensures SlotsForPref(Some(name)) == None
  {
  }

  // ---------------------------------------------------------------- requests

  /**
   * A row of the request sheet, with the columns normalisation reads; an
   * empty cell is `None` (pandas reads it as a float NaN).
   */
  datatype RawRequest = RawRequest(name: string, daysOfTheWeek: Option<string>, pref: Option<string>)

  /** A normalised request: `days` and `time_slots` replace the two raw columns. */
  datatype Request = Request(name: string, days: seq<string>, timeSlots: Option<seq<string>>)

  /** The `AttributeError` `parse_days` raises on an empty weekday cell, which is a float and has no `split`. */
  const DaysNotText: string := "'float' object has no attribute 'split'"

  /**
   * The column assignments of `handle`, applied row by row: an empty weekday
   * cell anywhere stops the whole `apply`; otherwise every row keeps its
   * name and gets its parsed days and its slots.
   */
  function Normalise(rows: seq<RawRequest>): (r: Result<seq<Request>, string>)
    ensures r.Err? <==> exists k :: 0 <= k < |rows| && rows[k].daysOfTheWeek.None?
    ensures r.Err? ==> r.error == DaysNotText
    ensures r.Ok? ==> |r.value| == |rows|
    ensures r.Ok? ==> forall k :: 0 <= k < |rows| ==>
              && r.value[k].name == rows[k].name
              && r.value[k].days == ParseDays(rows[k].daysOfTheWeek.value)
              && r.value[k].timeSlots == SlotsForPref(rows[k].pref)
  {
    if exists k :: 0 <= k < |rows| && rows[k].daysOfTheWeek.None? then Err(DaysNotText)
    else
      Ok(seq(|rows|, k requires 0 <= k < |rows| =>
        Request(rows[k].name, ParseDays(rows[k].daysOfTheWeek.value), SlotsForPref(rows[k].pref))))
  }

  /** Every normalised request has at least one day code. */
  lemma {:induction false} NormalisedHaveDays(rows: seq<RawRequest>)
    requires Normalise(rows).Ok?
    ensures forall k :: 0 <= k < |Normalise(rows).value| ==> |Normalise(rows).value[k].days| >= 1
  {
    var requests := Normalise(rows).value;
    forall k | 0 <= k < |rows| ensures |requests[k].days| >= 1 {
      var s := rows[k].daysOfTheWeek.value;
      if s != "all" {
        assert |ParseDays(s)| == Count(s, ',') + 1;
      }
    }
  }

  // ---------------------------------------------------------------- file suffix

  datatype Reader = CsvReader | ExcelReader

  const UnsupportedFormat: string := "Unsupported file format. Use .csv, .xlsx, or .xls"

  /**
   * The suffix dispatch of `load_requests`: ".csv" picks the CSV reader,
   * ".xlsx" or ".xls" the Excel reader, and any other path is refused.
   */
  function ReaderFor(path: string): (r: Result<Reader, string>)
    ensures r == Ok(CsvReader) <==> EndsWith(path, ".csv")
    ensures r == Ok(ExcelReader) <==> !EndsWith(path, ".csv") && (EndsWith(path, ".xlsx") || EndsWith(path, ".xls"))
    ensures r.Err? <==> !EndsWith(path, ".csv") && !EndsWith(path, ".xlsx") && !EndsWith(path, ".xls")
    ensures r.Err? ==> r.error == UnsupportedFormat
  {
    if EndsWith(path, ".csv") then Ok(CsvReader)
    else if EndsWith(path, ".xlsx") || EndsWith(path, ".xls") then Ok(ExcelReader)
    else Err(UnsupportedFormat)
  }

  /**
   * `load_requests` with the sheet's rows given: an unsupported suffix is an
   * error before any row is read; otherwise the rows are normalised, which
   * fails on an empty weekday cell.
   */
  function LoadRequests(path: string, rows: seq<RawRequest>): (r: Result<seq<Request>, string>)
    ensures r.Err? <==> ReaderFor(path).Err? || Normalise(rows).Err?
    ensures ReaderFor(path).Err? ==> r.error == UnsupportedFormat
    ensures ReaderFor(path).Ok? ==> r == Normalise(rows)
  {
    match ReaderFor(path)
    case Err(e) => Err(e)
    case Ok(_) => Normalise(rows)
  }
}
