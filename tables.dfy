/** The disclosure table and the column operations on it: dropping the
    auto-named columns (`clean_dataframe`), the outer-join concatenation of
    two tables (`pd.concat`) and the recency filter on position dates
    (`filter_recent_records`). */
module Tables {
  import opened Seqs
  import opened Dates

  /** A spreadsheet cell of a column the pipeline only carries along. */
  datatype Cell = Blank | Text(text: string) | Number(value: real) | Day(day: int)

  /** One disclosure row. The four columns the pipeline reads are typed
      fields; the cells of every other column are in `other`, in the order
      of the table's `columns`. */
  datatype Disclosure = Disclosure(
    holder: string,        // "Position Holder"
    issuer: string,        // "Name of Share Issuer"
    positionDate: int,     // "Position Date", as a day number
    netShort: real,        // "Net Short Position (%)"
    other: seq<Cell>)

  /** A table: the names of its other columns, and its rows. */
  datatype Table = Table(columns: seq<string>, rows: seq<Disclosure>)

  const PositionHolder: string := "Position Holder"
  const ShareIssuer: string := "Name of Share Issuer"
  const PositionDate: string := "Position Date"
  const NetShortPosition: string := "Net Short Position (%)"
  const CoreColumns: seq<string> := [PositionHolder, ShareIssuer, PositionDate, NetShortPosition]

  /** Column names are unique (as `read_excel` makes them), the core
      columns are not among the other columns, and every row has one cell
      per other column. */
  predicate WellFormed(t: Table) {
    && NoDuplicates(t.columns)
    && (forall c :: c in t.columns ==> c !in CoreColumns)
    && (forall k :: 0 <= k < |t.rows| ==> |t.rows[k].other| == |t.columns|)
  }

  /** The value of column `c` in `row`. */
  function CellOf(columns: seq<string>, row: Disclosure, c: string): Cell
    requires c in columns && |row.other| == |columns|
  {
    row.other[IndexOf(columns, c)]
  }

  /** The four columns the pipeline reads. */
  datatype Core = Core(holder: string, issuer: string, positionDate: int, netShort: real)

  function CoreOf(row: Disclosure): Core {
    Core(row.holder, row.issuer, row.positionDate, row.netShort)
  }

  function CoresOf(rows: seq<Disclosure>): (r: seq<Core>)
    ensures |r| == |rows| && forall k :: 0 <= k < |rows| ==> r[k] == CoreOf(rows[k])
  {
    seq(|rows|, k requires 0 <= k < |rows| => CoreOf(rows[k]))
  }

  /** Two rows agree on the four columns the pipeline reads. */
  predicate SameCore(a: Disclosure, b: Disclosure) {
    CoreOf(a) == CoreOf(b)
  }

  /** Why a run fails: a column lookup on a table that lacks the column
      (pandas' `KeyError`), or the date-range step applied to a table with
      no rows. */
  datatype Failure = MissingColumn(column: string) | EmptyFrame

  // ---------------------------------------------------------------------
  // clean_dataframe

  /** The header pandas invents for a column without one ("Unnamed: 3"),
      matched by the regular expression `^Unnamed`. */
  predicate IsAutoNamed(c: string): (b: bool)
    ensures b <==> exists rest :: c == "Unnamed" + rest
  {
    if |c| >= 7 && c[..7] == "Unnamed" then
      assert c == "Unnamed" + c[7..];
      true
    else
      false
  }

  lemma CoreColumnsAreNamed()
    ensures forall c :: c in CoreColumns ==> !IsAutoNamed(c)
  {
    forall c | c in CoreColumns ensures !IsAutoNamed(c) {
      assert c[0] != 'U';
      assert |c| >= 7 ==> c[..7][0] == c[0];
    }
  }

  /** The positions, from `from` on, of the columns that are kept. */
  function KeptIndices(columns: seq<string>, from: nat): (keep: seq<nat>)
    requires from <= |columns|
    ensures forall k :: 0 <= k < |keep| ==> from <= keep[k] < |columns| && !IsAutoNamed(columns[keep[k]])
    ensures forall i :: from <= i < |columns| && !IsAutoNamed(columns[i]) ==> i in keep
    ensures forall a, b :: 0 <= a < b < |keep| ==> keep[a] < keep[b]
    decreases |columns| - from
  {
    if from == |columns| then []
    else if IsAutoNamed(columns[from]) then KeptIndices(columns, from + 1)
    else [from] + KeptIndices(columns, from + 1)
  }

  function Pick<T>(s: seq<T>, idx: seq<nat>): (r: seq<T>)
    requires forall k :: 0 <= k < |idx| ==> idx[k] < |s|
    ensures |r| == |idx| && forall k :: 0 <= k < |idx| ==> r[k] == s[idx[k]]
  {
    seq(|idx|, k requires 0 <= k < |idx| => s[idx[k]])
  }

  lemma PickDistinct(s: seq<string>, idx: seq<nat>)
    requires NoDuplicates(s)
    requires forall k :: 0 <= k < |idx| ==> idx[k] < |s|
    requires forall a, b :: 0 <= a < b < |idx| ==> idx[a] < idx[b]
    ensures NoDuplicates(Pick(s, idx))
  {
    var p := Pick(s, idx);
    forall a, b | 0 <= a < b < |p| ensures p[a] != p[b] {
      assert idx[a] < idx[b];
    }
  }

  /** The columns kept by `CleanDataframe`, in their original order. */
  function KeptColumns(columns: seq<string>): (r: seq<string>)
    requires NoDuplicates(columns)
    ensures NoDuplicates(r)
    ensures forall c :: c in r <==> c in columns && !IsAutoNamed(c)
    ensures forall a, b :: 0 <= a < b < |r| ==> IndexOf(columns, r[a]) < IndexOf(columns, r[b])
  {
    var keep := KeptIndices(columns, 0);
    PickDistinct(columns, keep);
    var r := Pick(columns, keep);
    forall c | c in columns && !IsAutoNamed(c) ensures c in r {
      var i := IndexOf(columns, c);
      var m :| 0 <= m < |keep| && keep[m] == i;
      assert r[m] == c;
    }
    forall a, b | 0 <= a < b < |r| ensures IndexOf(columns, r[a]) < IndexOf(columns, r[b]) {
      IndexOfDistinct(columns, keep[a]);
      IndexOfDistinct(columns, keep[b]);
    }
    r
  }

  lemma KeptColumnsAt(columns: seq<string>, m: nat)
    requires NoDuplicates(columns) && m < |KeptColumns(columns)|
    ensures IndexOf(KeptColumns(columns), KeptColumns(columns)[m]) == m
    ensures IndexOf(columns, KeptColumns(columns)[m]) == KeptIndices(columns, 0)[m]
  {
    IndexOfDistinct(KeptColumns(columns), m);
    IndexOfDistinct(columns, KeptIndices(columns, 0)[m]);
  }

  /** One row restricted to the kept columns. */
  function CleanRow(columns: seq<string>, row: Disclosure): (r: Disclosure)
    requires NoDuplicates(columns) && |row.other| == |columns|
    ensures SameCore(r, row) && |r.other| == |KeptColumns(columns)|
    ensures forall c :: c in KeptColumns(columns) ==> CellOf(KeptColumns(columns), r, c) == CellOf(columns, row, c)
  {
    var r := row.(other := Pick(row.other, KeptIndices(columns, 0)));
    forall c | c in KeptColumns(columns) ensures CellOf(KeptColumns(columns), r, c) == CellOf(columns, row, c) {
      var m := IndexOf(KeptColumns(columns), c);
      KeptColumnsAt(columns, m);
    }
    r
  }

  /** `df.loc[:, ~df.columns.str.contains('^Unnamed')]`. */
  function CleanDataframe(t: Table): (r: Table)
    requires WellFormed(t)
    ensures WellFormed(r)
    ensures r.columns == KeptColumns(t.columns)
    ensures forall c :: c in r.columns <==> c in t.columns && !IsAutoNamed(c)
    ensures forall a, b :: 0 <= a < b < |r.columns| ==>
      IndexOf(t.columns, r.columns[a]) < IndexOf(t.columns, r.columns[b])
    ensures |r.rows| == |t.rows|
    ensures CoresOf(r.rows) == CoresOf(t.rows)
    ensures forall k, c :: 0 <= k < |r.rows| && c in r.columns ==>
      CellOf(r.columns, r.rows[k], c) == CellOf(t.columns, t.rows[k], c)
  {
    var columns := KeptColumns(t.columns);
    Table(columns, seq(|t.rows|, k requires 0 <= k < |t.rows| => CleanRow(t.columns, t.rows[k])))
  }

  // ---------------------------------------------------------------------
  // pd.concat([a, b], ignore_index=True)

  /** `r` holds, under the columns `to`, the cell `row` holds under the
      same column name in `from`, and a blank where `from` has no such
      column. */
  predicate AlignedWith(to: seq<string>, r: Disclosure, from: seq<string>, row: Disclosure)
    requires |r.other| == |to| && |row.other| == |from|
  {
    forall c :: c in to ==> CellOf(to, r, c) == if c in from then CellOf(from, row, c) else Blank
  }

  /** The row laid out for the columns `to`. */
  function Realign(row: Disclosure, from: seq<string>, to: seq<string>): (r: Disclosure)
    requires |row.other| == |from|
    ensures SameCore(r, row) && |r.other| == |to|
    ensures AlignedWith(to, r, from, row)
  {
    row.(other := seq(|to|, i requires 0 <= i < |to| =>
      if to[i] in from then row.other[IndexOf(from, to[i])] else Blank))
  }

  /** The columns of `b` that `a` lacks, in `b`'s order. */
  function NewColumns(a: seq<string>, b: seq<string>): (r: seq<string>)
    ensures forall c :: c in r <==> c in b && c !in a
    ensures IsSubsequence(r, b)
  {
    Filter((c: string) => c !in a, b)
  }

  /** The union of the column lists: those of `a`, then those of `b` that
      `a` lacks, in `b`'s order. */
  function UnionColumns(a: seq<string>, b: seq<string>): (r: seq<string>)
    requires NoDuplicates(a) && NoDuplicates(b)
    ensures NoDuplicates(r)
    ensures |r| >= |a| && r[..|a|] == a
    ensures r[|a|..] == NewColumns(a, b)
    ensures forall c :: c in r <==> c in a || c in b
  {
    var extra := NewColumns(a, b);
    FilterKeepsDistinct((c: string) => c !in a, b);
    AppendDistinct(a, extra);
    var r := a + extra;
    assert r[..|a|] == a && r[|a|..] == extra;
    r
  }

  /** `rows` are the rows of `t`, in order, each laid out for the columns
      `to`. */
  predicate RowsAlignedWith(to: seq<string>, rows: seq<Disclosure>, t: Table)
    requires WellFormed(t)
  {
    && |rows| == |t.rows|
    && forall k :: 0 <= k < |rows| ==>
         SameCore(rows[k], t.rows[k]) && |rows[k].other| == |to| && AlignedWith(to, rows[k], t.columns, t.rows[k])
  }

  function RealignRows(t: Table, to: seq<string>): (rows: seq<Disclosure>)
    requires WellFormed(t)
    ensures RowsAlignedWith(to, rows, t)
  {
    seq(|t.rows|, k requires 0 <= k < |t.rows| => Realign(t.rows[k], t.columns, to))
  }

  /** Row-wise concatenation with outer join on the columns: the rows of
      `a`, then the rows of `b`, each laid out for the union of the
      columns. */
  function Concat(a: Table, b: Table): (r: Table)
    requires WellFormed(a) && WellFormed(b)
    ensures WellFormed(r)
    ensures |r.columns| >= |a.columns| && r.columns[..|a.columns|] == a.columns
    ensures r.columns[|a.columns|..] == NewColumns(a.columns, b.columns)
    ensures forall c :: c in r.columns <==> c in a.columns || c in b.columns
    ensures |r.rows| == |a.rows| + |b.rows|
    ensures RowsAlignedWith(r.columns, r.rows[..|a.rows|], a)
    ensures RowsAlignedWith(r.columns, r.rows[|a.rows|..], b)
    ensures CoresOf(r.rows) == CoresOf(a.rows) + CoresOf(b.rows)
  {
    var columns := UnionColumns(a.columns, b.columns);
    var top := RealignRows(a, columns);
    var bottom := RealignRows(b, columns);
    var rows := top + bottom;
    assert rows[..|a.rows|] == top && rows[|a.rows|..] == bottom;
    AppendRows(top, bottom, |columns|);
    assert CoresOf(top) == CoresOf(a.rows) && CoresOf(bottom) == CoresOf(b.rows);
    Table(columns, rows)
  }

  /** Appending two row lists appends their core values, and keeps every
      row's width. */
  lemma AppendRows(top: seq<Disclosure>, bottom: seq<Disclosure>, width: nat)
    requires forall k :: 0 <= k < |top| ==> |top[k].other| == width
    requires forall k :: 0 <= k < |bottom| ==> |bottom[k].other| == width
    ensures forall k :: 0 <= k < |top + bottom| ==> |(top + bottom)[k].other| == width
    ensures CoresOf(top + bottom) == CoresOf(top) + CoresOf(bottom)
  {
    var rows := top + bottom;
    assert forall k :: 0 <= k < |top| ==> rows[k] == top[k];
    assert forall k :: |top| <= k < |rows| ==> rows[k] == bottom[k - |top|];
  }

  /** The cleaned table's rows carry the original rows' cells. */
  lemma CleanAligned(t: Table)
    requires WellFormed(t)
    ensures RowsAlignedWith(CleanDataframe(t).columns, CleanDataframe(t).rows, t)
  {
    var r := CleanDataframe(t);
    forall k | 0 <= k < |r.rows|
      ensures SameCore(r.rows[k], t.rows[k]) && AlignedWith(r.columns, r.rows[k], t.columns, t.rows[k])
    {
      assert CoresOf(r.rows)[k] == CoresOf(t.rows)[k];
    }
  }

  /** Rows laid out for columns `to` from the cleaned `t` are laid out from
      `t` itself, when `to` has no auto-named column. */
  lemma AlignedThroughClean(to: seq<string>, rows: seq<Disclosure>, t: Table)
    requires WellFormed(t)
    requires forall c :: c in to ==> !IsAutoNamed(c)
    requires RowsAlignedWith(to, rows, CleanDataframe(t))
    ensures RowsAlignedWith(to, rows, t)
  {
    var ct := CleanDataframe(t);
    forall k | 0 <= k < |rows|
      ensures SameCore(rows[k], t.rows[k]) && AlignedWith(to, rows[k], t.columns, t.rows[k])
    {
      assert CoresOf(ct.rows)[k] == CoresOf(t.rows)[k];
    }
  }

  // ---------------------------------------------------------------------
  // filter_recent_records

  /** `df[df['Position Date'] >= cutoff]`: exactly the rows disclosed on or
      after the cutoff, in their original order. */
  function FilterRecentRecords(t: Table, cutoff: Timestamp): (r: Table)
    ensures r.columns == t.columns
    ensures forall row :: row in r.rows <==> row in t.rows && OnOrAfter(row.positionDate, cutoff)
    ensures forall row :: multiset(r.rows)[row] == if OnOrAfter(row.positionDate, cutoff) then multiset(t.rows)[row] else 0
    ensures IsSubsequence(r.rows, t.rows)
    ensures WellFormed(t) ==> WellFormed(r)
  {
    var rows := Filter((row: Disclosure) => OnOrAfter(row.positionDate, cutoff), t.rows);
    assert forall k :: 0 <= k < |rows| ==> rows[k] in t.rows;
    Table(t.columns, rows)
  }
}
