/** The join of ListCleanings in pkg/navmap/robotdb.go: the maps of a database are
    converted into the cleaning records that began at the same time. */
module Cleanings {
  import opened Options
  import opened Bytes
  import opened Raster
  import opened MapFile
  import opened MapConvert

  const BLANK := Status(None, [], Position(0.0, 0.0))

  /** What unpacking yields: octets, and whether it breaks off after them instead of coming
      to an end. */
  datatype Stream = Stream(octets: seq<byte>, broken: bool)

  /** A row with a map: when its cleaning began, and its data as they are unpacked, or
      nothing when the header of the packed data is bad. */
  datatype Row = Row(begin: int, data: Option<Stream>)

  /** The position of the last record that began then, or -1. */
  function LastRecord(records: seq<int>, begin: int): (i: int)
    ensures -1 <= i < |records|
    ensures i >= 0 ==> records[i] == begin
    ensures forall j :: i < j < |records| ==> records[j] != begin
  {
    if records == [] then -1
    else if records[|records| - 1] == begin then |records| - 1
    else LastRecord(records[..|records| - 1], begin)
  }

  /** What one row does to the status of the record that began then. (A row that breaks
      off fails the listing, and no status is seen.) */
  function WithRow(platform: Platform, before: Status, row: Row, begin: int): Status {
    if row.begin == begin && row.data.Some? then Converted(platform, before, row.data.value.octets).status else before
  }

  /** The status that the rows for one beginning lead to, one after the other. */
  function Folded(platform: Platform, rows: seq<Row>, begin: int): Status {
    if rows == [] then BLANK
    else WithRow(platform, Folded(platform, rows[..|rows| - 1], begin), rows[|rows| - 1], begin)
  }

  /** What the record at `i` ends up with: of records with the same beginning only the
      last one gets the maps. */
  function Filled(platform: Platform, records: seq<int>, rows: seq<Row>, i: nat): Status
    requires i < |records|
  {
    if i == LastRecord(records, records[i]) then Folded(platform, rows, records[i]) else BLANK
  }

  /** No row stops the listing: all have a good header, and those with a record convert.
      That a stream breaks off is only found out by reading it, so not without a record; and
      then it is always an error, because the block loop ends well at an end of file only. */
  predicate AllConvert(platform: Platform, records: seq<int>, rows: seq<Row>) {
    rows == [] ||
    var row, init := rows[|rows| - 1], rows[..|rows| - 1];
    && AllConvert(platform, records, init)
    && row.data.Some?
    && (row.begin in records ==>
          && !row.data.value.broken
          && Converted(platform, Folded(platform, init, row.begin), row.data.value.octets).error.None?)
  }

  /** The row itself does not stop the listing, given the rows before it. */
  predicate RowConverts(platform: Platform, records: seq<int>, rows: seq<Row>, k: nat)
    requires k < |rows|
  {
    && rows[k].data.Some?
    && (rows[k].begin in records ==>
          && !rows[k].data.value.broken
          && Converted(platform, Folded(platform, rows[..k], rows[k].begin), rows[k].data.value.octets).error.None?)
  }

  lemma RowOfPrefix(platform: Platform, records: seq<int>, rows: seq<Row>, n: nat, k: nat)
    requires k < n <= |rows|
    ensures RowConverts(platform, records, rows[..n], k) == RowConverts(platform, records, rows, k)
  {
    assert rows[..n][..k] == rows[..k];
  }

  /** The listing goes through exactly when every row does: a bad header stops it even in a
      row without a record, a stream that breaks off or a map that does not convert only in a
      row with one. */
  lemma {:induction false} AllConvertExactly(platform: Platform, records: seq<int>, rows: seq<Row>)
    ensures AllConvert(platform, records, rows)
       <==> forall k :: 0 <= k < |rows| ==> RowConverts(platform, records, rows, k)
  {
    if rows != [] {
      var n := |rows| - 1;
      AllConvertExactly(platform, records, rows[..n]);
      forall k | 0 <= k < n
        ensures RowConverts(platform, records, rows[..n], k) == RowConverts(platform, records, rows, k)
      {
        RowOfPrefix(platform, records, rows, n, k);
      }
      assert AllConvert(platform, records, rows)
        <==> AllConvert(platform, records, rows[..n]) && RowConverts(platform, records, rows, n);
    }
  }

  lemma {:induction false} LastRecordIs(records: seq<int>, i: nat)
    requires i < |records|
    ensures LastRecord(records, records[i]) >= i
  {
    if i < |records| - 1 {
      LastRecordIs(records[..|records| - 1], i);
    }
  }

  /** A record has no map, no path and the charger at the origin exactly when it has to
      leave its maps to a later record with the same beginning, and the status that the rows
      with its beginning lead to otherwise. */
  lemma FilledExactly(platform: Platform, records: seq<int>, rows: seq<Row>, i: nat)
    requires i < |records|
    ensures Filled(platform, records, rows, i)
         == if exists j :: i < j < |records| && records[j] == records[i] then Status(None, [], Position(0.0, 0.0))
            else Folded(platform, rows, records[i])
  {
    LastRecordIs(records, i);
  }

  function RowsOf(rows: seq<Row>, begin: int): seq<Row> {
    if rows == [] then []
    else
      var row := rows[|rows| - 1];
      RowsOf(rows[..|rows| - 1], begin) + if row.begin == begin then [row] else []
  }

  lemma FoldedMore(platform: Platform, rows: seq<Row>, row: Row, begin: int)
    ensures Folded(platform, rows + [row], begin) == WithRow(platform, Folded(platform, rows, begin), row, begin)
  {
    assert (rows + [row])[..|rows|] == rows;
  }

  lemma FoldedOther(platform: Platform, rows: seq<Row>, row: Row, begin: int)
    requires row.begin != begin
    ensures Folded(platform, rows + [row], begin) == Folded(platform, rows, begin)
  {
    FoldedMore(platform, rows, row, begin);
  }

  lemma RowsOfMore(rows: seq<Row>, row: Row, begin: int)
    ensures RowsOf(rows + [row], begin)
         == if row.begin == begin then RowsOf(rows, begin) + [row] else RowsOf(rows, begin)
  {
    assert (rows + [row])[..|rows|] == rows;
  }

  /** Rows of other cleanings do not matter, wherever they are. */
  lemma {:induction false} OtherRowsDoNotMatter(platform: Platform, rows: seq<Row>, begin: int)
    ensures Folded(platform, rows, begin) == Folded(platform, RowsOf(rows, begin), begin)
  {
    if rows != [] {
      var init, row := rows[..|rows| - 1], rows[|rows| - 1];
      assert rows == init + [row];
      OtherRowsDoNotMatter(platform, init, begin);
      RowsOfMore(init, row, begin);
      if row.begin == begin {
        FoldedMore(platform, init, row, begin);
        FoldedMore(platform, RowsOf(init, begin), row, begin);
      } else {
        FoldedOther(platform, init, row, begin);
      }
    }
  }

  /** With one row for a record, its status is that of its map file. */
  lemma OneRow(platform: Platform, rows: seq<Row>, begin: int, data: seq<byte>)
    requires RowsOf(rows, begin) == [Row(begin, Some(Stream(data, false)))]
    ensures Folded(platform, rows, begin) == Converted(platform, BLANK, data).status
  {
    OtherRowsDoNotMatter(platform, rows, begin);
    assert [Row(begin, Some(Stream(data, false)))][..0] == [];
  }

  /** The objects are the records' own, and the index leads to the last one of each. */
  ghost predicate Indexed(records: seq<int>, cleanings: seq<Cleaning>, indexByBegin: map<int, Cleaning>) {
    && |cleanings| == |records|
    && (forall i, j :: 0 <= i < j < |cleanings| ==> cleanings[i] != cleanings[j])
    && (forall b :: b in indexByBegin <==> LastRecord(records, b) >= 0)
    && (forall b :: b in indexByBegin ==> indexByBegin[b] == cleanings[LastRecord(records, b)])
  }

  lemma IndexedMore(records: seq<int>, begin: int, cleanings: seq<Cleaning>, indexByBegin: map<int, Cleaning>,
                    cleaning: Cleaning)
    requires Indexed(records, cleanings, indexByBegin) && cleaning !in cleanings
    ensures Indexed(records + [begin], cleanings + [cleaning], indexByBegin[begin := cleaning])
  {
    assert (records + [begin])[..|records|] == records;
  }

  lemma FilledMore(platform: Platform, records: seq<int>, rows: seq<Row>, row: Row, i: nat)
    requires i < |records|
    ensures Filled(platform, records, rows + [row], i)
         == if i == LastRecord(records, row.begin)
            then WithRow(platform, Filled(platform, records, rows, i), row, row.begin)
            else Filled(platform, records, rows, i)
  {
    FoldedMore(platform, rows, row, records[i]);
  }

  method NewCleanings(records: seq<int>) returns (cleanings: seq<Cleaning>, indexByBegin: map<int, Cleaning>)
    ensures Indexed(records, cleanings, indexByBegin)
    ensures forall i :: 0 <= i < |cleanings| ==> fresh(cleanings[i]) && cleanings[i].View() == BLANK
  {
    cleanings, indexByBegin := [], map[];
    for i := 0 to |records|
      invariant Indexed(records[..i], cleanings, indexByBegin)
      invariant forall k :: 0 <= k < i ==> fresh(cleanings[k]) && cleanings[k].View() == BLANK
    {
      var cleaning := new Cleaning(BLANK);
      assert records[..i + 1] == records[..i] + [records[i]];
      IndexedMore(records[..i], records[i], cleanings, indexByBegin, cleaning);
      indexByBegin := indexByBegin[records[i] := cleaning];
      cleanings := cleanings + [cleaning];
    }
    assert records[..|records|] == records;
  }

  lemma InIndex(records: seq<int>, begin: int)
    ensures begin in records <==> LastRecord(records, begin) >= 0
  {
  }

  lemma {:induction false} StopsAt(platform: Platform, records: seq<int>, rows: seq<Row>, k: nat)
    requires k < |rows| && !AllConvert(platform, records, rows[..k + 1])
    ensures !AllConvert(platform, records, rows)
    decreases |rows|
  {
    if k == |rows| - 1 {
      assert rows[..k + 1] == rows;
    } else {
      var init := rows[..|rows| - 1];
      assert init[..k + 1] == rows[..k + 1];
      StopsAt(platform, records, init, k);
    }
  }

  /** Lists the cleanings. One row that does not convert fails the whole listing. */
  method ListCleanings(platform: Platform, records: seq<int>, rows: seq<Row>)
    returns (cleanings: seq<Cleaning>, ok: bool)
    ensures ok <==> AllConvert(platform, records, rows)
    ensures if !ok then cleanings == []
            else |cleanings| == |records| &&
                 forall i :: 0 <= i < |records| ==> cleanings[i].View() == Filled(platform, records, rows, i)
  {
    var all, indexByBegin := NewCleanings(records);
    for k := 0 to |rows|
      invariant Indexed(records, all, indexByBegin)
      invariant forall i :: 0 <= i < |all| ==> fresh(all[i])
      invariant forall i :: 0 <= i < |all| ==> all[i].View() == Filled(platform, records, rows[..k], i)
      invariant AllConvert(platform, records, rows[..k])
    {
      var row := rows[k];
      assert rows[..k + 1] == rows[..k] + [row];
      InIndex(records, row.begin);
      forall i | 0 <= i < |records|
        ensures Filled(platform, records, rows[..k + 1], i)
             == if i == LastRecord(records, row.begin)
                then WithRow(platform, Filled(platform, records, rows[..k], i), row, row.begin)
                else Filled(platform, records, rows[..k], i)
      {
        FilledMore(platform, records, rows[..k], row, i);
      }
      if row.data.None? {
        StopsAt(platform, records, rows, k);
        return [], false;
      }
      if row.begin in indexByBegin {
        var reader := new Reader(row.data.value.octets);
        var error := ConvertMap(platform, reader, indexByBegin[row.begin]);
        if error.Some? || row.data.value.broken {
          StopsAt(platform, records, rows, k);
          return [], false;
        }
      }
    }
    assert rows[..|rows|] == rows;
    return all, true;
  }
}
