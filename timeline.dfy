/** The timeline reconstruction: ordering the disclosures by date, linking
    each to the next disclosure of the same (holder, issuer) pair
    (`calculate_next_position_date`), the threshold rule for the days a
    disclosure covers (`apply_date_range`), one row per covered day
    (`explode_date_ranges`) and the recency filter on those days. */
module Timeline {
  import opened Seqs
  import opened Dates
  import opened Tables

  // ---------------------------------------------------------------------
  // sort_values(by='Position Date')

  predicate SortedByDate(s: seq<Disclosure>) {
    forall i, j :: 0 <= i < j < |s| ==> s[i].positionDate <= s[j].positionDate
  }

  function Insert(x: Disclosure, s: seq<Disclosure>): (r: seq<Disclosure>)
    requires SortedByDate(s)
    ensures SortedByDate(r) && multiset(r) == multiset(s) + multiset{x}
  {
    if s == [] || x.positionDate <= s[0].positionDate then [x] + s
    else
      var rest := Insert(x, s[1..]);
      ConsSorted(s, x, rest);
      [s[0]] + rest
  }

  /** The first row of `s` can go in front of `x` inserted into the rest. */
  lemma ConsSorted(s: seq<Disclosure>, x: Disclosure, rest: seq<Disclosure>)
    requires SortedByDate(s) && s != [] && s[0].positionDate < x.positionDate
    requires SortedByDate(rest) && multiset(rest) == multiset(s[1..]) + multiset{x}
    ensures SortedByDate([s[0]] + rest)
    ensures multiset([s[0]] + rest) == multiset(s) + multiset{x}
  {
    assert s == [s[0]] + s[1..];
    var r := [s[0]] + rest;
    forall k | 0 < k < |r| ensures s[0].positionDate <= r[k].positionDate {
      var y := r[k];
      assert y == rest[k - 1];
      assert y in multiset(rest);
      if y != x {
        assert y in multiset(s[1..]);
        assert y in s[1..];
      }
    }
  }

  /** Orders the rows by position date. Rows with equal dates may come out
      in any order (pandas' default sort is not stable), so the rest of the
      model only relies on this contract. */
  function SortByDate(s: seq<Disclosure>): (r: seq<Disclosure>)
    ensures SortedByDate(r) && multiset(r) == multiset(s)
  {
    if s == [] then []
    else
      assert s == [s[0]] + s[1..];
      Insert(s[0], SortByDate(s[1..]))
  }

  // ---------------------------------------------------------------------
  // groupby(['Position Holder', 'Name of Share Issuer'])['Position Date'].shift(-1)

  /** The grouping key. */
  predicate SameGroup(a: Disclosure, b: Disclosure) {
    a.holder == b.holder && a.issuer == b.issuer
  }

  /** Row `j` is the row that follows row `i` within its group. */
  ghost predicate IsNextInGroup(s: seq<Disclosure>, i: int, j: int) {
    && 0 <= i < j < |s|
    && SameGroup(s[i], s[j])
    && forall k :: i < k < j ==> !SameGroup(s[i], s[k])
  }

  /** No later row belongs to the group of row `i`. */
  ghost predicate IsLastInGroup(s: seq<Disclosure>, i: int) {
    0 <= i < |s| && forall j :: i < j < |s| ==> !SameGroup(s[i], s[j])
  }

  /** The first row from `from` on in the group of row `i`. */
  function GroupSuccessor(s: seq<Disclosure>, i: nat, from: nat): (r: Option<nat>)
    requires i < |s| && from <= |s|
    ensures r.Some? ==> from <= r.value < |s| && SameGroup(s[i], s[r.value])
    ensures r.Some? ==> forall k :: from <= k < r.value ==> !SameGroup(s[i], s[k])
    ensures r.None? ==> forall k :: from <= k < |s| ==> !SameGroup(s[i], s[k])
    decreases |s| - from
  {
    if from == |s| then None
    else if SameGroup(s[i], s[from]) then Some(from)
    else GroupSuccessor(s, i, from + 1)
  }

  function NextPositionDate(s: seq<Disclosure>, i: nat, today: int): int
    requires i < |s|
  {
    match GroupSuccessor(s, i, i + 1)
    case Some(j) => s[j].positionDate
    case None => today
  }

  /** The "Next Position Date" column: the date of the next disclosure of
      the same (holder, issuer) pair, or today's date for the last one. */
  function NextPositionDates(s: seq<Disclosure>, today: int): (r: seq<int>)
    ensures |r| == |s|
    ensures forall i :: 0 <= i < |s| && IsLastInGroup(s, i) ==> r[i] == today
    ensures forall i, j :: IsNextInGroup(s, i, j) ==> r[i] == s[j].positionDate
  {
    var r := seq(|s|, i requires 0 <= i < |s| => NextPositionDate(s, i, today));
    forall i, j | IsNextInGroup(s, i, j) ensures r[i] == s[j].positionDate {
      var g := GroupSuccessor(s, i, i + 1);
      assert g == Some(j);
    }
    r
  }

  /** Once the rows are in date order, a row that is not the last of its
      group is linked to a date no earlier than its own. */
  lemma NextDateNotBefore(s: seq<Disclosure>, today: int, i: nat)
    requires SortedByDate(s) && i < |s| && !IsLastInGroup(s, i)
    ensures NextPositionDates(s, today)[i] >= s[i].positionDate
  {
    var g := GroupSuccessor(s, i, i + 1);
    if g.Some? {
      assert IsNextInGroup(s, i, g.value);
    }
  }

  /** Within a group, the linked dates never decrease along the date order,
      provided no disclosure is dated after today. */
  lemma NextDatesNondecreasingInGroup(s: seq<Disclosure>, today: int, i: nat, k: nat)
    requires SortedByDate(s) && i < k < |s| && SameGroup(s[i], s[k])
    requires forall m :: 0 <= m < |s| ==> s[m].positionDate <= today
    ensures NextPositionDates(s, today)[i] <= NextPositionDates(s, today)[k]
  {
    var next := NextPositionDates(s, today);
    var g := GroupSuccessor(s, i, i + 1);
    assert g.Some?;
    var j := g.value;
    assert IsNextInGroup(s, i, j);
    assert j <= k;
    var h := GroupSuccessor(s, k, k + 1);
    if h.Some? {
      assert IsNextInGroup(s, k, h.value);
    } else {
      assert IsLastInGroup(s, k);
    }
  }

  /** The proviso of NextDatesNondecreasingInGroup is needed: a group
      disclosed on day 5 and again on day 10, linked on day 7, gets next
      dates 10 and then 7. */
  lemma FutureDateBreaksNondecreasing()
    ensures var s := [Disclosure("H", "I", 5, 0.8, []), Disclosure("H", "I", 10, 0.8, [])];
      && SortedByDate(s)
      && SameGroup(s[0], s[1])
      && NextPositionDates(s, 7) == [10, 7]
  {
    var s := [Disclosure("H", "I", 5, 0.8, []), Disclosure("H", "I", 10, 0.8, [])];
    assert IsNextInGroup(s, 0, 1);
    assert IsLastInGroup(s, 1);
  }

  // ---------------------------------------------------------------------
  // apply_date_range

  /** The threshold below which a disclosure covers only its own day. */
  const Threshold: real := 0.5

  /** The "Date Range" of one row: its own day when the net short position
      is below the threshold; otherwise every day from its position date up
      to the day before the next position date, which is empty when the
      next date is not after the position date. */
  function AdjustDateRange(netShort: real, positionDate: int, next: int): (r: seq<int>)
    ensures netShort < Threshold ==> r == [positionDate]
    ensures netShort >= Threshold ==> |r| == (if next <= positionDate then 0 else next - positionDate)
    ensures netShort >= Threshold ==> forall k :: 0 <= k < |r| ==> r[k] == positionDate + k
    ensures netShort >= Threshold ==> forall d :: d in r <==> positionDate <= d < next
  {
    if netShort < Threshold then [positionDate]
    else
      var r := DayRange(positionDate, next - 1);
      forall d | positionDate <= d < next ensures d in r {
        assert r[d - positionDate] == d;
      }
      r
  }

  /** Two examples: a 0.3% position covers one day; a 0.8%
      position disclosed on day d and superseded on day d + 3 covers days d,
      d + 1 and d + 2. */
  lemma DateRangeExamples(d: int, next: int)
    ensures AdjustDateRange(0.3, d, next) == [d]
    ensures AdjustDateRange(0.8, d, d + 3) == [d, d + 1, d + 2]
  {
  }

  /** The "Date Range" column. */
  function DateRanges(rows: seq<Disclosure>, next: seq<int>): (r: seq<seq<int>>)
    requires |next| == |rows|
    ensures |r| == |rows|
    ensures forall i :: 0 <= i < |rows| ==> r[i] == AdjustDateRange(rows[i].netShort, rows[i].positionDate, next[i])
  {
    seq(|rows|, i requires 0 <= i < |rows| => AdjustDateRange(rows[i].netShort, rows[i].positionDate, next[i]))
  }

  // ---------------------------------------------------------------------
  // explode_date_ranges

  /** A row of the exploded table: the disclosure's columns, its "Next
      Position Date", and the "Date" it stands for; `None` is the missing
      date pandas produces when exploding an empty range. */
  datatype DailyRow = DailyRow(
    holder: string,
    issuer: string,
    positionDate: int,
    netShort: real,
    other: seq<Cell>,
    nextPositionDate: int,
    date: Option<int>)

  function Stamp(row: Disclosure, next: int, date: Option<int>): DailyRow {
    DailyRow(row.holder, row.issuer, row.positionDate, row.netShort, row.other, next, date)
  }

  /** How many exploded rows a range yields. */
  function Width(range: seq<int>): nat {
    if range == [] then 1 else |range|
  }

  function ExplodeRow(row: Disclosure, next: int, range: seq<int>): (r: seq<DailyRow>)
    ensures |r| == Width(range)
  {
    if range == [] then [Stamp(row, next, None)]
    else seq(|range|, k requires 0 <= k < |range| => Stamp(row, next, Some(range[k])))
  }

  /** `df.explode('Date Range')`, the column then renamed "Date". */
  function ExplodeDateRanges(rows: seq<Disclosure>, next: seq<int>, ranges: seq<seq<int>>): (r: seq<DailyRow>)
    requires |next| == |rows| && |ranges| == |rows|
    ensures |r| >= |rows|
  {
    if rows == [] then []
    else ExplodeRow(rows[0], next[0], ranges[0]) + ExplodeDateRanges(rows[1..], next[1..], ranges[1..])
  }

  /** Where the rows exploded from row `i` begin. */
  function Offset(ranges: seq<seq<int>>, i: nat): nat
    requires i <= |ranges|
  {
    if i == 0 then 0 else Width(ranges[0]) + Offset(ranges[1..], i - 1)
  }

  lemma {:induction false} OffsetStep(ranges: seq<seq<int>>, i: nat)
    requires i < |ranges|
    ensures Offset(ranges, i + 1) == Offset(ranges, i) + Width(ranges[i])
  {
    if i > 0 {
      OffsetStep(ranges[1..], i - 1);
    }
  }

  /** The exploded table has one row per day of each range, and one row for
      each empty range. */
  lemma {:induction false} ExplodeLength(rows: seq<Disclosure>, next: seq<int>, ranges: seq<seq<int>>)
    requires |next| == |rows| && |ranges| == |rows|
    ensures |ExplodeDateRanges(rows, next, ranges)| == Offset(ranges, |rows|)
  {
    if rows != [] {
      ExplodeLength(rows[1..], next[1..], ranges[1..]);
    }
  }

  /** Output order is input row order, then range order: the `k`-th row
      exploded from row `i` sits at `Offset(ranges, i) + k` and carries the
      `k`-th day of its range (or no date, for an empty range) with every
      other column copied. */
  lemma {:induction false} ExplodeAt(rows: seq<Disclosure>, next: seq<int>, ranges: seq<seq<int>>, i: nat, k: nat)
    requires |next| == |rows| && |ranges| == |rows|
    requires i < |rows| && k < Width(ranges[i])
    ensures Offset(ranges, i) + k < |ExplodeDateRanges(rows, next, ranges)|
    ensures ExplodeDateRanges(rows, next, ranges)[Offset(ranges, i) + k] ==
      Stamp(rows[i], next[i], if ranges[i] == [] then None else Some(ranges[i][k]))
  {
    var out := ExplodeDateRanges(rows, next, ranges);
    var head := ExplodeRow(rows[0], next[0], ranges[0]);
    var tail := ExplodeDateRanges(rows[1..], next[1..], ranges[1..]);
    assert out == head + tail;
    if i == 0 {
      assert out[k] == head[k];
    } else {
      ExplodeAt(rows[1..], next[1..], ranges[1..], i - 1, k);
      assert out[|head| + Offset(ranges[1..], i - 1) + k] == tail[Offset(ranges[1..], i - 1) + k];
    }
  }

  /** `e` is one of the rows exploded from `row`. */
  ghost predicate ExplodedFrom(e: DailyRow, row: Disclosure, next: int, range: seq<int>) {
    && e == Stamp(row, next, e.date)
    && (e.date.None? ==> range == [])
    && (e.date.Some? ==> e.date.value in range)
  }

  /** Every exploded row comes from some input row: it carries that row's
      columns and either a day of its range, or no date when the range is
      empty. */
  lemma {:induction false} ExplodeOrigin(rows: seq<Disclosure>, next: seq<int>, ranges: seq<seq<int>>, p: nat)
    requires |next| == |rows| && |ranges| == |rows|
    requires p < |ExplodeDateRanges(rows, next, ranges)|
    ensures exists i :: 0 <= i < |rows| && ExplodedFrom(ExplodeDateRanges(rows, next, ranges)[p], rows[i], next[i], ranges[i])
  {
    var out := ExplodeDateRanges(rows, next, ranges);
    var head := ExplodeRow(rows[0], next[0], ranges[0]);
    var tail := ExplodeDateRanges(rows[1..], next[1..], ranges[1..]);
    assert out == head + tail;
    if p < |head| {
      assert out[p] == head[p];
      assert ExplodedFrom(out[p], rows[0], next[0], ranges[0]);
    } else {
      ExplodeOrigin(rows[1..], next[1..], ranges[1..], p - |head|);
      assert out[p] == tail[p - |head|];
      var i :| 0 <= i < |rows[1..]| && ExplodedFrom(tail[p - |head|], rows[1..][i], next[1..][i], ranges[1..][i]);
      assert ExplodedFrom(out[p], rows[i + 1], next[i + 1], ranges[i + 1]);
    }
  }

  // ---------------------------------------------------------------------
  // exploded_df[exploded_df['Date'] >= cutoff_date]

  /** Keeps exactly the exploded rows whose date is on or after the cutoff;
      a row without a date never passes. */
  function FilterByDate(rows: seq<DailyRow>, cutoff: Timestamp): (r: seq<DailyRow>)
    ensures forall e :: e in r <==> e in rows && e.date.Some? && OnOrAfter(e.date.value, cutoff)
    ensures forall e :: multiset(r)[e] == if e.date.Some? && OnOrAfter(e.date.value, cutoff) then multiset(rows)[e] else 0
    ensures IsSubsequence(r, rows)
  {
    Filter((e: DailyRow) => e.date.Some? && OnOrAfter(e.date.value, cutoff), rows)
  }
}
