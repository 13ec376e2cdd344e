/** `PositionDataProcessor.process_positions`: the historic sheet (recent
    rows only) and the current sheet are merged, linked, expanded into one
    row per covered day, filtered to the reporting window and anonymised.

    The two steps that change the merged DataFrame in place,
    `calculate_next_position_date` and `apply_date_range`, are methods of
    `PositionFrame`; the steps that build new frames are the functions of
    the other modules. */
module Processor {
  import opened Seqs
  import opened Dates
  import opened Tables
  import opened Loader
  import opened Timeline
  import opened Anonymise

  /** The merged DataFrame while the linking steps add columns to it: the
      non-core column names, the disclosure rows, and the "Next Position
      Date" and "Date Range" columns once they have been assigned. */
  class PositionFrame {
    var columns: seq<string>
    var rows: seq<Disclosure>
    var nextPositionDate: Option<seq<int>>
    var dateRange: Option<seq<seq<int>>>

    /** Every assigned column has one entry per row. */
    ghost predicate Valid()
      reads this
    {
      && (nextPositionDate.Some? ==> |nextPositionDate.value| == |rows|)
      && (dateRange.Some? ==> |dateRange.value| == |rows|)
    }

    constructor (t: Table)
      ensures Valid()
      ensures columns == t.columns && rows == t.rows
      ensures nextPositionDate.None? && dateRange.None?
    {
      columns := t.columns;
      rows := t.rows;
      nextPositionDate := None;
      dateRange := None;
    }

    /** Sorts the rows by position date in place, then sets each row's next
        position date: the date of the next row of its (holder, issuer)
        group, or `today` for the last row of a group. */
    method CalculateNextPositionDate(today: int)
      requires Valid() && dateRange.None?
      modifies this`rows, this`nextPositionDate
      ensures Valid() && dateRange.None?
      ensures SortedByDate(rows) && multiset(rows) == multiset(old(rows))
      ensures nextPositionDate.Some?
      ensures forall i :: 0 <= i < |rows| && IsLastInGroup(rows, i) ==> nextPositionDate.value[i] == today
      ensures forall i, j :: IsNextInGroup(rows, i, j) ==> nextPositionDate.value[i] == rows[j].positionDate
      ensures nextPositionDate == Some(NextPositionDates(rows, today))
    {
      rows := SortByDate(rows);
      nextPositionDate := Some(NextPositionDates(rows, today));
    }

    /** Assigns each row the days it covers. On a frame without rows the
        row-wise apply yields a frame rather than a column, and assigning it
        fails: `ok` is false and nothing changes. */
    method ApplyDateRange() returns (ok: bool)
      requires Valid() && nextPositionDate.Some?
      modifies this`dateRange
      ensures Valid()
      ensures ok <==> |rows| > 0
      ensures !ok ==> dateRange == old(dateRange)
      ensures ok ==> dateRange.Some? && forall i :: 0 <= i < |rows| ==>
        dateRange.value[i] == AdjustDateRange(rows[i].netShort, rows[i].positionDate, nextPositionDate.value[i])
    {
      ok := |rows| > 0;
      if ok {
        dateRange := Some(DateRanges(rows, nextPositionDate.value));
      }
    }
  }

  /** The pair `process_positions` returns: the anonymised daily rows (with
      the names of their non-core columns) and the holder mapping. */
  datatype Output = Output(columns: seq<string>, daily: Anonymized)

  /** The end of `process_positions`, once the frame carries its next dates
      and ranges: explode, keep the days in the window and anonymise. Every
      row that comes out has a date, and that date is in the window. */
  function Finish(columns: seq<string>, rows: seq<Disclosure>, next: seq<int>, ranges: seq<seq<int>>, cutoff: Timestamp): (r: Output)
    requires |next| == |rows| && |ranges| == |rows|
    ensures r.columns == columns
    ensures forall k :: 0 <= k < |r.daily.rows| ==>
      r.daily.rows[k].date.Some? && OnOrAfter(r.daily.rows[k].date.value, cutoff)
  {
    var recent := FilterByDate(ExplodeDateRanges(rows, next, ranges), cutoff);
    FilteredInWindow(ExplodeDateRanges(rows, next, ranges), cutoff);
    AnonymizedInWindow(recent, cutoff);
    Output(columns, AnonymizePositionHolders(recent))
  }

  /** Every row the window filter keeps is dated in the window. */
  lemma FilteredInWindow(rows: seq<DailyRow>, cutoff: Timestamp)
    ensures forall k :: 0 <= k < |FilterByDate(rows, cutoff)| ==>
      FilterByDate(rows, cutoff)[k].date.Some? && OnOrAfter(FilterByDate(rows, cutoff)[k].date.value, cutoff)
  {
    var r := FilterByDate(rows, cutoff);
    forall k | 0 <= k < |r| ensures r[k].date.Some? && OnOrAfter(r[k].date.value, cutoff) {
      assert r[k] in r;
    }
  }

  /** Renaming holders keeps every row's date. */
  lemma AnonymizedInWindow(rows: seq<DailyRow>, cutoff: Timestamp)
    requires forall k :: 0 <= k < |rows| ==> rows[k].date.Some? && OnOrAfter(rows[k].date.value, cutoff)
    ensures forall k :: 0 <= k < |AnonymizePositionHolders(rows).rows| ==>
      AnonymizePositionHolders(rows).rows[k].date.Some? && OnOrAfter(AnonymizePositionHolders(rows).rows[k].date.value, cutoff)
  {
  }

  /** What `process_positions` makes of the merged rows once they are in
      date order `sorted`: link, take ranges, explode, keep the days in the
      window and anonymise. It fails exactly when there is nothing to link. */
  function Daily(sorted: seq<Disclosure>, columns: seq<string>, today: int, cutoff: Timestamp): (r: Result<Output, Failure>)
    ensures r.Err? <==> sorted == []
    ensures r.Err? ==> r.error == EmptyFrame
    ensures r.Ok? ==> r.value.columns == columns
  {
    if sorted == [] then Err(EmptyFrame)
    else
      var next := NextPositionDates(sorted, today);
      Ok(Finish(columns, sorted, next, DateRanges(sorted, next), cutoff))
  }

  /** `r` is the daily timeline of some date-ordering of `merged`'s rows. */
  ghost predicate TimelineOf(r: Result<Output, Failure>, merged: Table, today: int, cutoff: Timestamp) {
    exists p :: SortedByDate(p) && multiset(p) == multiset(merged.rows) && r == Daily(p, merged.columns, today, cutoff)
  }

  /** The merged table `process_positions` builds from the two sheets,
      `historicCutoff` being the cutoff of `filter_recent_records` (always
      six months). It fails exactly when no sheet name contains "historic". */
  function Merged(book: seq<Sheet>, historicCutoff: Timestamp): (r: Result<Table, Failure>)
    requires forall i :: 0 <= i < |book| ==> WellFormed(book[i].table)
    ensures r.Err? <==> forall i :: 0 <= i < |book| ==> !NameMatches(book[i].name, "historic")
    ensures r.Err? ==> r.error == MissingColumn(PositionDate)
    ensures r.Ok? ==> WellFormed(r.value)
    ensures LoadSheet(book, "historic").Some? ==> WellFormed(LoadSheet(book, "historic").value)
    ensures LoadSheet(book, "current").Some? ==> WellFormed(LoadSheet(book, "current").value)
    ensures r == MergeSheets(LoadSheet(book, "historic"), LoadSheet(book, "current"), historicCutoff)
  {
    var historic := LoadSheet(book, "historic");
    var current := LoadSheet(book, "current");
    LoadSheetFindsAnyMatch(book, "historic");
    MergeSheets(historic, current, historicCutoff)
  }

  /** `process_positions` from the merged frame on: link and take ranges in
      place, then explode, filter and anonymise. */
  method BuildTimeline(merged: Table, today: int, cutoff: Timestamp) returns (r: Result<Output, Failure>)
    ensures TimelineOf(r, merged, today, cutoff)
  {
    var frame := new PositionFrame(merged);
    frame.CalculateNextPositionDate(today);
    var ok := frame.ApplyDateRange();
    if !ok {
      r := Err(EmptyFrame);
    } else {
      assert frame.dateRange.value == DateRanges(frame.rows, frame.nextPositionDate.value);
      r := Ok(Finish(merged.columns, frame.rows, frame.nextPositionDate.value, frame.dateRange.value, cutoff));
    }
    assert r == Daily(frame.rows, merged.columns, today, cutoff);
  }

  /** `process_positions(months)` on a workbook given as its sheets. `now`
      is the one clock reading the run uses, and `monthsBefore(day, m)` is
      the day `DateOffset(months=m)` before `day`. The historic sheet is
      filtered with the default six months whatever `months` is; the final
      filter uses `months`. The result is the daily timeline of some
      date-ordering of the merged rows. */
  method ProcessPositions(book: seq<Sheet>, months: nat, now: Timestamp, monthsBefore: (int, nat) -> int)
    returns (r: Result<Output, Failure>)
    requires forall i :: 0 <= i < |book| ==> WellFormed(book[i].table)
    ensures Merged(book, Cutoff(now, 6, monthsBefore)).Err? ==>
      r == Err(Merged(book, Cutoff(now, 6, monthsBefore)).error)
    ensures Merged(book, Cutoff(now, 6, monthsBefore)).Ok? ==>
      TimelineOf(r, Merged(book, Cutoff(now, 6, monthsBefore)).value, now.day, Cutoff(now, months, monthsBefore))
  {
    var merged := Merged(book, Cutoff(now, 6, monthsBefore));
    if merged.Err? {
      return Err(merged.error);
    }
    r := BuildTimeline(merged.value, now.day, Cutoff(now, months, monthsBefore));
  }

  // ---------------------------------------------------------------------
  // What the daily timeline promises

  /** Day `d` is one of the days the disclosure `row` covers when its next
      disclosure is dated `next`: its own date below the threshold,
      otherwise every day up to the day before `next`. */
  ghost predicate Covers(row: Disclosure, next: int, d: int) {
    if row.netShort < Threshold then d == row.positionDate
    else row.positionDate <= d < next
  }

  lemma CoversIsDateRange(row: Disclosure, next: int, d: int)
    ensures d in AdjustDateRange(row.netShort, row.positionDate, next) <==> Covers(row, next, d)
  {
  }

  /** The output row `e` stands for day `d` of the disclosure `row`, under
      the pseudonym `e.holder` that `mapping` gives the disclosure's holder. */
  ghost predicate DayOf(e: DailyRow, row: Disclosure, next: int, d: int, mapping: seq<MappingRow>) {
    && e == Stamp(row, next, Some(d)).(holder := e.holder)
    && exists i :: 0 <= i < |mapping| && mapping[i] == MappingRow(row.holder, e.holder)
  }

  /** Output row `k` is a day that disclosure `i` covers, and stands for it. */
  ghost predicate CoveredDayOf(out: Anonymized, k: int, sorted: seq<Disclosure>, today: int, i: int)
    requires 0 <= k < |out.rows| && 0 <= i < |sorted|
  {
    var next := NextPositionDates(sorted, today)[i];
    && out.rows[k].date.Some?
    && Covers(sorted[i], next, out.rows[k].date.value)
    && DayOf(out.rows[k], sorted[i], next, out.rows[k].date.value, out.mapping)
  }

  /** A row that survives the window filter is a dated row exploded from
      some disclosure. */
  lemma FilteredRowOrigin(rows: seq<Disclosure>, next: seq<int>, ranges: seq<seq<int>>, cutoff: Timestamp)
    requires |next| == |rows| && |ranges| == |rows|
    ensures forall e :: e in FilterByDate(ExplodeDateRanges(rows, next, ranges), cutoff) ==>
      && e.date.Some? && OnOrAfter(e.date.value, cutoff)
      && exists i :: 0 <= i < |rows| && ExplodedFrom(e, rows[i], next[i], ranges[i])
  {
    var exploded := ExplodeDateRanges(rows, next, ranges);
    forall e | e in FilterByDate(exploded, cutoff)
      ensures exists i :: 0 <= i < |rows| && ExplodedFrom(e, rows[i], next[i], ranges[i])
    {
      var q :| 0 <= q < |exploded| && exploded[q] == e;
      ExplodeOrigin(rows, next, ranges, q);
    }
  }

  /** Output row `k` has a date in the window, and that date is a day some
      disclosure covers. */
  ghost predicate SoundRow(out: Anonymized, k: int, sorted: seq<Disclosure>, today: int, cutoff: Timestamp)
    requires 0 <= k < |out.rows|
  {
    && out.rows[k].date.Some?
    && OnOrAfter(out.rows[k].date.value, cutoff)
    && exists i :: 0 <= i < |sorted| && CoveredDayOf(out, k, sorted, today, i)
  }

  /** Soundness: every output row is a day in the window that some
      disclosure covers, renamed as the mapping says. */
  lemma DailyRowOrigin(sorted: seq<Disclosure>, columns: seq<string>, today: int, cutoff: Timestamp)
    ensures Daily(sorted, columns, today, cutoff).Ok? ==>
      var out := Daily(sorted, columns, today, cutoff).value.daily;
      forall k :: 0 <= k < |out.rows| ==> SoundRow(out, k, sorted, today, cutoff)
  {
    if sorted != [] {
      var next := NextPositionDates(sorted, today);
      var ranges := DateRanges(sorted, next);
      var recent := FilterByDate(ExplodeDateRanges(sorted, next, ranges), cutoff);
      var out := AnonymizePositionHolders(recent);
      assert out == Daily(sorted, columns, today, cutoff).value.daily;
      FilteredRowOrigin(sorted, next, ranges, cutoff);
      forall k | 0 <= k < |out.rows| ensures SoundRow(out, k, sorted, today, cutoff) {
        var e := recent[k];
        assert e in recent;
        var i :| 0 <= i < |sorted| && ExplodedFrom(e, sorted[i], next[i], ranges[i]);
        CoversIsDateRange(sorted[i], next[i], e.date.value);
        assert MappedBy(out.mapping, e, out.rows[k]);
        assert CoveredDayOf(out, k, sorted, today, i);
      }
    }
  }

  /** A day that disclosure `i` covers and that is in the window survives
      the explode and the window filter. */
  lemma CoveredDayKept(rows: seq<Disclosure>, next: seq<int>, cutoff: Timestamp, i: nat, d: int)
    requires |next| == |rows| && i < |rows|
    requires Covers(rows[i], next[i], d) && OnOrAfter(d, cutoff)
    ensures Stamp(rows[i], next[i], Some(d)) in FilterByDate(ExplodeDateRanges(rows, next, DateRanges(rows, next)), cutoff)
  {
    var ranges := DateRanges(rows, next);
    CoversIsDateRange(rows[i], next[i], d);
    var j :| 0 <= j < |ranges[i]| && ranges[i][j] == d;
    ExplodeAt(rows, next, ranges, i, j);
  }

  /** Completeness: every day in the window that a disclosure covers has an
      output row. */
  lemma DailyRowComplete(sorted: seq<Disclosure>, columns: seq<string>, today: int, cutoff: Timestamp, i: nat, d: int)
    requires i < |sorted|
    requires Covers(sorted[i], NextPositionDates(sorted, today)[i], d) && OnOrAfter(d, cutoff)
    ensures Daily(sorted, columns, today, cutoff).Ok?
    ensures var out := Daily(sorted, columns, today, cutoff).value.daily;
      exists k :: 0 <= k < |out.rows| && DayOf(out.rows[k], sorted[i], NextPositionDates(sorted, today)[i], d, out.mapping)
  {
    var next := NextPositionDates(sorted, today);
    var recent := FilterByDate(ExplodeDateRanges(sorted, next, DateRanges(sorted, next)), cutoff);
    var out := AnonymizePositionHolders(recent);
    assert out == Daily(sorted, columns, today, cutoff).value.daily;
    CoveredDayKept(sorted, next, cutoff, i, d);
    var e := Stamp(sorted[i], next[i], Some(d));
    var k :| 0 <= k < |recent| && recent[k] == e;
    assert MappedBy(out.mapping, recent[k], out.rows[k]);
    assert DayOf(out.rows[k], sorted[i], next[i], d, out.mapping);
  }
}
