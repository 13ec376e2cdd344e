/** The record loader of `process_positions`: picking a worksheet by
    keyword, and merging the recent historic rows with the current rows. */
module Loader {
  import opened Seqs
  import opened Text
  import opened Dates
  import opened Tables

  /** One worksheet of the downloaded workbook, already parsed. */
  datatype Sheet = Sheet(name: string, table: Table)

  /** `keyword.lower() in sheet.lower()` */
  predicate NameMatches(name: string, keyword: string): (b: bool)
    ensures Lower(name) == Lower(keyword) ==> b
    ensures |keyword| > |name| ==> !b
    ensures b <==> exists i :: 0 <= i && OccursAt(Lower(keyword), Lower(name), i)
  {
    ContainsLength(Lower(name), Lower(keyword));
    assert Contains(Lower(name), Lower(keyword)) <==> exists i :: 0 <= i && OccursAt(Lower(keyword), Lower(name), i);
    Contains(Lower(name), Lower(keyword))
  }

  /** Sheet `i` is the first one whose name matches. */
  ghost predicate IsFirstMatch(book: seq<Sheet>, keyword: string, i: int) {
    && 0 <= i < |book|
    && NameMatches(book[i].name, keyword)
    && forall j :: 0 <= j < i ==> !NameMatches(book[j].name, keyword)
  }

  /** The condition of the generator in `load_sheet`, sheet by sheet. */
  function MatchFlags(book: seq<Sheet>, keyword: string): (flags: seq<bool>)
    ensures |flags| == |book|
    ensures forall i :: 0 <= i < |book| ==> flags[i] == NameMatches(book[i].name, keyword)
  {
    seq(|book|, i requires 0 <= i < |book| => NameMatches(book[i].name, keyword))
  }

  /** `next(...)` over the generator: the first position from `from` on
      whose condition holds. */
  function FirstMatch(flags: seq<bool>, from: nat): (r: Option<nat>)
    requires from <= |flags|
    ensures r.Some? ==> from <= r.value < |flags| && flags[r.value]
    ensures r.Some? ==> forall j :: from <= j < r.value ==> !flags[j]
    ensures r.None? ==> forall j :: from <= j < |flags| ==> !flags[j]
    decreases |flags| - from
  {
    if from == |flags| then None
    else if flags[from] then Some(from)
    else FirstMatch(flags, from + 1)
  }

  /** `load_sheet` after the download: the table of the first sheet whose
      lower-cased name contains the lower-cased keyword; `None` (an empty
      frame without columns) when no sheet matches, or when the match has
      an empty name, which Python treats as false. */
  function LoadSheet(book: seq<Sheet>, keyword: string): (r: Option<Table>)
    ensures r.Some? <==> exists i :: IsFirstMatch(book, keyword, i) && book[i].name != ""
    ensures forall i :: IsFirstMatch(book, keyword, i) && book[i].name != "" ==> r == Some(book[i].table)
    ensures r.Some? ==> exists i :: 0 <= i < |book| && r.value == book[i].table
  {
    var flags := MatchFlags(book, keyword);
    match FirstMatch(flags, 0)
    case None =>
      assert forall i :: !IsFirstMatch(book, keyword, i);
      None
    case Some(i) =>
      assert IsFirstMatch(book, keyword, i);
      assert forall j :: IsFirstMatch(book, keyword, j) ==> j == i;
      if book[i].name != "" then Some(book[i].table) else None
  }

  /** With a non-empty keyword (such as "historic" or "current") a sheet is
      loaded exactly when some sheet name matches. */
  lemma LoadSheetFindsAnyMatch(book: seq<Sheet>, keyword: string)
    requires keyword != ""
    ensures LoadSheet(book, keyword).None? <==> forall i :: 0 <= i < |book| ==> !NameMatches(book[i].name, keyword)
  {
    var r := FirstMatch(MatchFlags(book, keyword), 0);
    if r.Some? {
      var i := r.value;
      var name := book[i].name;
      var p :| 0 <= p && OccursAt(Lower(keyword), Lower(name), p);
      assert |Lower(name)| >= |Lower(keyword)| > 0;
      assert IsFirstMatch(book, keyword, i);
    }
  }

  /** The merge in `process_positions`: the historic sheet filtered to the
      recent rows and cleaned, then the cleaned current sheet appended. A
      missing historic sheet has no "Position Date" column to filter on.
      The merged columns are the kept historic ones, then the kept current
      ones the historic sheet lacks; each merged row carries its sheet's
      cells under those columns and blanks elsewhere. */
  function MergeSheets(historic: Option<Table>, current: Option<Table>, cutoff: Timestamp): (r: Result<Table, Failure>)
    requires historic.Some? ==> WellFormed(historic.value)
    requires current.Some? ==> WellFormed(current.value)
    ensures historic.None? <==> r.Err?
    ensures historic.None? ==> r.error == MissingColumn(PositionDate)
    ensures r.Ok? ==> WellFormed(r.value)
    ensures r.Ok? ==> forall c :: c in r.value.columns <==>
      && !IsAutoNamed(c)
      && (c in historic.value.columns || (current.Some? && c in current.value.columns))
    ensures r.Ok? ==> r.value.columns == MergedColumns(historic.value, current)
    ensures r.Ok? ==>
      CoresOf(r.value.rows) ==
      CoresOf(FilterRecentRecords(historic.value, cutoff).rows) + (if current.Some? then CoresOf(current.value.rows) else [])
    ensures r.Ok? ==>
      var recent := FilterRecentRecords(historic.value, cutoff);
      && |r.value.rows| == |recent.rows| + (if current.Some? then |current.value.rows| else 0)
      && RowsAlignedWith(r.value.columns, r.value.rows[..|recent.rows|], recent)
      && (current.Some? ==> RowsAlignedWith(r.value.columns, r.value.rows[|recent.rows|..], current.value))
  {
    match historic
    case None => Err(MissingColumn(PositionDate))
    case Some(h) =>
      var recent := CleanDataframe(FilterRecentRecords(h, cutoff));
      match current
      case None =>
        HistoricOnlyAligned(h, cutoff);
        Ok(recent)
      case Some(c) =>
        ConcatAligned(h, c, cutoff);
        Ok(Concat(recent, CleanDataframe(c)))
  }

  /** The merged column names: the historic sheet's kept columns, then the
      current sheet's kept columns that the historic sheet lacks. */
  function MergedColumns(historic: Table, current: Option<Table>): seq<string>
    requires WellFormed(historic) && (current.Some? ==> WellFormed(current.value))
  {
    if current.Some? then UnionColumns(KeptColumns(historic.columns), KeptColumns(current.value.columns))
    else KeptColumns(historic.columns)
  }

  /** Without a current sheet, the merged rows are the recent historic rows
      with their kept cells. */
  lemma HistoricOnlyAligned(h: Table, cutoff: Timestamp)
    requires WellFormed(h)
    ensures var recent := FilterRecentRecords(h, cutoff); var m := CleanDataframe(recent);
      && |m.rows| == |recent.rows|
      && RowsAlignedWith(m.columns, m.rows[..|recent.rows|], recent)
  {
    var recent := FilterRecentRecords(h, cutoff);
    var m := CleanDataframe(recent);
    CleanAligned(recent);
    assert m.rows[..|recent.rows|] == m.rows;
  }

  /** With a current sheet, the merged rows are the recent historic rows,
      then the current rows, each with its own sheet's cells. */
  lemma ConcatAligned(h: Table, c: Table, cutoff: Timestamp)
    requires WellFormed(h) && WellFormed(c)
    ensures var recent := FilterRecentRecords(h, cutoff);
      var m := Concat(CleanDataframe(recent), CleanDataframe(c));
      && |m.rows| == |recent.rows| + |c.rows|
      && RowsAlignedWith(m.columns, m.rows[..|recent.rows|], recent)
      && RowsAlignedWith(m.columns, m.rows[|recent.rows|..], c)
  {
    var recent := FilterRecentRecords(h, cutoff);
    var m := Concat(CleanDataframe(recent), CleanDataframe(c));
    AlignedThroughClean(m.columns, m.rows[..|recent.rows|], recent);
    AlignedThroughClean(m.columns, m.rows[|recent.rows|..], c);
  }
}
