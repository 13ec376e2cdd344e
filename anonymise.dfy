/** `anonymize_position_holders`: every distinct position holder, in order
    of first appearance, is renamed "Fund 001", "Fund 002", ...; the rows
    keep every other column, and the mapping table lists each original name
    beside its pseudonym. */
module Anonymise {
  import opened Seqs
  import opened Text
  import opened Timeline

  const FundPrefix: string := "Fund "

  /** `f"Fund {str(n).zfill(3)}"`: the prefix, then the number in exactly
      three digits when it is below 1000, and in its own digits otherwise. */
  function FundName(n: nat): (r: string)
    ensures |r| >= |FundPrefix| + 3 && r[..|FundPrefix|] == FundPrefix
    ensures AllDigits(r[|FundPrefix|..])
    ensures |r| == |FundPrefix| + (if |Decimal(n)| < 3 then 3 else |Decimal(n)|)
    ensures n < 1000 <==> |r| == |FundPrefix| + 3
  {
    DecimalLength(n, 3);
    ZFillDecimalValue(n, 3);
    var r := FundPrefix + ZFill(Decimal(n), 3);
    assert r[|FundPrefix|..] == ZFill(Decimal(n), 3);
    r
  }

  /** Reads the number back out of a pseudonym. */
  function FundNumber(name: string): Option<nat> {
    if |name| > |FundPrefix| && name[..|FundPrefix|] == FundPrefix && AllDigits(name[|FundPrefix|..])
    then Some(DigitsValue(name[|FundPrefix|..]))
    else None
  }

  lemma FundNameRoundTrip(n: nat)
    ensures FundNumber(FundName(n)) == Some(n)
  {
    var name := FundName(n);
    ZFillDecimalValue(n, 3);
    assert name[..|FundPrefix|] == FundPrefix;
    assert name[|FundPrefix|..] == ZFill(Decimal(n), 3);
  }

  lemma FundNameInjective(m: nat, n: nat)
    requires FundName(m) == FundName(n)
    ensures m == n
  {
    FundNameRoundTrip(m);
    FundNameRoundTrip(n);
  }

  lemma FundNameExamples()
    ensures FundName(1) == "Fund 001"
    ensures FundName(42) == "Fund 042"
    ensures FundName(1000) == "Fund 1000"
  {
  }

  /** One row of the mapping table: 'Original Name', 'Anonymized Name'. */
  datatype MappingRow = MappingRow(original: string, anonymized: string)

  datatype Anonymized = Anonymized(rows: seq<DailyRow>, mapping: seq<MappingRow>)

  function Holders(rows: seq<DailyRow>): (h: seq<string>)
    ensures |h| == |rows| && forall k :: 0 <= k < |rows| ==> h[k] == rows[k].holder
  {
    seq(|rows|, k requires 0 <= k < |rows| => rows[k].holder)
  }

  /** The pseudonym of holder `h` among the distinct holders `unique`. */
  function Pseudonym(unique: seq<string>, h: string): string
    requires h in unique
  {
    FundName(IndexOf(unique, h) + 1)
  }

  /** The number of different values in `s`. */
  function DistinctCount<T(==)>(s: seq<T>): nat {
    |set x | x in s|
  }

  lemma {:induction false} DistinctCountOfUnique<T>(u: seq<T>)
    requires NoDuplicates(u)
    ensures DistinctCount(u) == |u|
  {
    if u != [] {
      var init := u[..|u| - 1];
      var last := u[|u| - 1];
      assert u == init + [last];
      DistinctCountOfUnique(init);
      assert (set x | x in u) == (set x | x in init) + {last};
      assert last !in init;
    }
  }

  /** There are as many distinct holders as `Unique` returns. */
  lemma DistinctCountIsUniqueLength<T(!new)>(s: seq<T>)
    ensures DistinctCount(s) == |Unique(s)|
  {
    var u := Unique(s);
    DistinctCountOfUnique(u);
    assert (set x | x in u) == (set x | x in s);
  }

  /** Each row with its holder replaced by that holder's pseudonym. */
  function Rename(rows: seq<DailyRow>, unique: seq<string>): (r: seq<DailyRow>)
    requires forall k :: 0 <= k < |rows| ==> rows[k].holder in unique
    ensures |r| == |rows|
    ensures forall k :: 0 <= k < |rows| ==> r[k] == rows[k].(holder := Pseudonym(unique, rows[k].holder))
  {
    seq(|rows|, k requires 0 <= k < |rows| => rows[k].(holder := Pseudonym(unique, rows[k].holder)))
  }

  /** The mapping table for the distinct holders `unique`. */
  function MappingTable(unique: seq<string>): (m: seq<MappingRow>)
    ensures |m| == |unique|
    ensures forall i :: 0 <= i < |m| ==> m[i] == MappingRow(unique[i], FundName(i + 1))
    ensures forall a, b :: 0 <= a < b < |m| ==> m[a].anonymized != m[b].anonymized
  {
    var m := seq(|unique|, i requires 0 <= i < |unique| => MappingRow(unique[i], FundName(i + 1)));
    forall a, b | 0 <= a < b < |m| ensures m[a].anonymized != m[b].anonymized {
      if m[a].anonymized == m[b].anonymized {
        FundNameInjective(a + 1, b + 1);
      }
    }
    m
  }

  /** Some row of `mapping` has `h` as its original name. */
  ghost predicate HasOriginal(mapping: seq<MappingRow>, h: string) {
    exists i :: 0 <= i < |mapping| && mapping[i].original == h
  }

  lemma MappingListsEveryHolder(holders: seq<string>)
    ensures forall h :: h in holders ==> HasOriginal(MappingTable(Unique(holders)), h)
  {
    var unique := Unique(holders);
    var mapping := MappingTable(unique);
    forall h | h in holders ensures HasOriginal(mapping, h) {
      assert mapping[IndexOf(unique, h)].original == h;
    }
  }

  /** `mapping` has a row pairing `row`'s holder with `renamed`'s holder. */
  ghost predicate MappedBy(mapping: seq<MappingRow>, row: DailyRow, renamed: DailyRow) {
    exists i :: 0 <= i < |mapping| && mapping[i] == MappingRow(row.holder, renamed.holder)
  }

  lemma RenameFollowsMapping(rows: seq<DailyRow>, unique: seq<string>)
    requires forall k :: 0 <= k < |rows| ==> rows[k].holder in unique
    ensures forall k :: 0 <= k < |rows| ==> MappedBy(MappingTable(unique), rows[k], Rename(rows, unique)[k])
  {
    var mapping := MappingTable(unique);
    var renamed := Rename(rows, unique);
    forall k | 0 <= k < |rows| ensures MappedBy(mapping, rows[k], renamed[k]) {
      assert mapping[IndexOf(unique, rows[k].holder)] == MappingRow(rows[k].holder, renamed[k].holder);
    }
  }

  /** The mapping table of a list of holders: one row per distinct holder, in
      order of first appearance. */
  lemma MappingOfHolders(holders: seq<string>)
    ensures var m := MappingTable(Unique(holders));
      && |m| == DistinctCount(holders)
      && (forall i :: 0 <= i < |m| ==> m[i].original in holders)
      && (forall h :: h in holders ==> HasOriginal(m, h))
      && (forall a, b :: 0 <= a < b < |m| ==>
            m[a].original != m[b].original && IndexOf(holders, m[a].original) < IndexOf(holders, m[b].original))
  {
    var unique := Unique(holders);
    var m := MappingTable(unique);
    DistinctCountIsUniqueLength(holders);
    MappingListsEveryHolder(holders);
    assert forall i :: 0 <= i < |m| ==> m[i].original == unique[i];
  }

  /** Renaming the rows by their own distinct holders changes only the holder,
      and as the mapping table says. */
  lemma RenamedRows(rows: seq<DailyRow>)
    ensures forall k :: 0 <= k < |rows| ==> rows[k].holder in Unique(Holders(rows))
    ensures var unique := Unique(Holders(rows)); var r := Rename(rows, unique);
      && |r| == |rows|
      && forall k :: 0 <= k < |rows| ==>
           r[k] == rows[k].(holder := r[k].holder) && MappedBy(MappingTable(unique), rows[k], r[k])
  {
    var holders := Holders(rows);
    forall k | 0 <= k < |rows| ensures rows[k].holder in Unique(holders) {
      assert holders[k] in holders;
    }
    RenameFollowsMapping(rows, Unique(holders));
  }

  function AnonymizePositionHolders(rows: seq<DailyRow>): (r: Anonymized)
    ensures |r.rows| == |rows|
    ensures forall k :: 0 <= k < |rows| ==> r.rows[k] == rows[k].(holder := r.rows[k].holder)
    // one mapping row per distinct holder, originals in first-appearance order
    ensures |r.mapping| == DistinctCount(Holders(rows))
    ensures forall i :: 0 <= i < |r.mapping| ==> r.mapping[i].original in Holders(rows)
    ensures forall h :: h in Holders(rows) ==> HasOriginal(r.mapping, h)
    ensures forall a, b :: 0 <= a < b < |r.mapping| ==>
      IndexOf(Holders(rows), r.mapping[a].original) < IndexOf(Holders(rows), r.mapping[b].original)
    // the i-th distinct holder is called Fund i+1, and the names differ
    ensures forall i :: 0 <= i < |r.mapping| ==> r.mapping[i].anonymized == FundName(i + 1)
    ensures forall a, b :: 0 <= a < b < |r.mapping| ==>
      r.mapping[a].original != r.mapping[b].original && r.mapping[a].anonymized != r.mapping[b].anonymized
    // each row's new holder is the pseudonym the mapping gives its old holder
    ensures forall k :: 0 <= k < |rows| ==> MappedBy(r.mapping, rows[k], r.rows[k])
  {
    var unique := Unique(Holders(rows));
    MappingOfHolders(Holders(rows));
    RenamedRows(rows);
    var mapping := MappingTable(unique);
    Anonymized(Rename(rows, unique), mapping)
  }

  /** The original name the mapping table gives for a pseudonym. */
  function Deanonymize(mapping: seq<MappingRow>, name: string): Option<string>
  {
    if mapping == [] then None
    else if mapping[0].anonymized == name then Some(mapping[0].original)
    else Deanonymize(mapping[1..], name)
  }

  lemma {:induction false} DeanonymizeAt(mapping: seq<MappingRow>, i: nat)
    requires i < |mapping|
    requires forall a, b :: 0 <= a < b < |mapping| ==> mapping[a].anonymized != mapping[b].anonymized
    ensures Deanonymize(mapping, mapping[i].anonymized) == Some(mapping[i].original)
  {
    if i > 0 {
      assert mapping[0].anonymized != mapping[i].anonymized;
      DeanonymizeAt(mapping[1..], i - 1);
    }
  }

  /** Round trip: looking a row's new holder up in the mapping table gives
      back its original holder. */
  lemma AnonymizeRoundTrip(rows: seq<DailyRow>, k: nat)
    requires k < |rows|
    ensures Deanonymize(AnonymizePositionHolders(rows).mapping, AnonymizePositionHolders(rows).rows[k].holder)
      == Some(rows[k].holder)
  {
    var r := AnonymizePositionHolders(rows);
    assert MappedBy(r.mapping, rows[k], r.rows[k]);
    var i :| 0 <= i < |r.mapping| && r.mapping[i] == MappingRow(rows[k].holder, r.rows[k].holder);
    DeanonymizeAt(r.mapping, i);
  }

  /** Every holder in the anonymised rows is a pseudonym numbered between 1
      and the number of distinct holders; so when no original name has the
      shape of a pseudonym, no original name is left in the rows. */
  lemma AnonymizedHoldersArePseudonyms(rows: seq<DailyRow>, k: nat)
    requires k < |rows|
    ensures var r := AnonymizePositionHolders(rows);
      && FundNumber(r.rows[k].holder).Some?
      && 1 <= FundNumber(r.rows[k].holder).value <= |r.mapping|
    ensures (forall j :: 0 <= j < |rows| ==> FundNumber(rows[j].holder).None?) ==>
      forall j :: 0 <= j < |rows| ==> AnonymizePositionHolders(rows).rows[k].holder != rows[j].holder
  {
    var r := AnonymizePositionHolders(rows);
    assert MappedBy(r.mapping, rows[k], r.rows[k]);
    var i :| 0 <= i < |r.mapping| && r.mapping[i] == MappingRow(rows[k].holder, r.rows[k].holder);
    FundNameRoundTrip(i + 1);
  }
}
