/** Row extraction: turns the spreadsheet rows into one `CsvData` per song,
    reading the fixed columns and the three columns of one performer. */
module RowExtraction {

  import opened Wrappers
  import opened Text
  import opened Types

  /** The number of fixed columns (0 to 7) before the performer columns. */
  const FixedColumns: nat := 8

  // ------------------------------------------------------------ header scan

  /** The index of the last header cell equal to `performer`, if any. */
  function LastIndexOf(header: Row, performer: string): (r: Option<nat>)
    ensures r.Some? ==>
      r.value < |header| && header[r.value] == performer &&
      forall j :: r.value < j < |header| ==> header[j] != performer
    ensures r.None? <==> performer !in header
  {
    if header == [] then None
    else if header[|header| - 1] == performer then Some(|header| - 1)
    else
      assert forall j :: 0 <= j < |header| - 1 ==> header[..|header| - 1][j] == header[j];
      LastIndexOf(header[..|header| - 1], performer)
  }

  /** Scans the whole header; every exact match overwrites the index found
      so far, so the last match wins. */
  method FindPerformerIndex(header: Row, performer: string) returns (performerIndex: Option<nat>)
    ensures performerIndex == LastIndexOf(header, performer)
  {
    performerIndex := None;
    var columnIndex := 0;
    while columnIndex < |header|
      invariant 0 <= columnIndex <= |header|
      invariant performerIndex == LastIndexOf(header[..columnIndex], performer)
    {
      assert header[..columnIndex + 1][..columnIndex] == header[..columnIndex];
      if header[columnIndex] == performer {
        performerIndex := Some(columnIndex);
      }
      columnIndex := columnIndex + 1;
    }
    assert header[..columnIndex] == header;
  }

  // ------------------------------------------------------------ one data row

  /** A data row yields a record exactly when its performer columns lie past
      the fixed ones (a performer column that coincides with a fixed column
      is taken by the fixed column's `case` and so never assigned), all three
      exist, and the file-name cell holds at least one token. */
  predicate RowAccepted(row: Row, performerIndex: nat)
  {
    FixedColumns <= performerIndex && performerIndex + 2 < |row| &&
    SplitTokens(row[performerIndex], '|') != []
  }

  /** The record a data row yields, or the rejection. */
  function ParseRow(row: Row, performerIndex: nat, performer: string): Result<CsvData, Error>
  {
    if RowAccepted(row, performerIndex) then
      Ok(CsvData(row[0], row[1], row[2], row[3], row[4], row[5], row[6], row[7],
                 SplitTokens(row[performerIndex], '|'),
                 row[performerIndex + 1], row[performerIndex + 2]))
    else Err(RowIncomplete(performer))
  }

  /** What a field holds after columns `0 .. upto - 1` have been visited, when
      only column `k` assigns it. */
  function Seen(row: Row, k: nat, upto: nat): Option<string>
    requires upto <= |row|
  {
    if k < upto then Some(row[k]) else None
  }

  /** The same for a performer field, which its column reaches only when no
      fixed column's `case` matches first. */
  function SeenPerformer(row: Row, k: nat, upto: nat): Option<string>
    requires upto <= |row|
  {
    if FixedColumns <= k < upto then Some(row[k]) else None
  }

  /** Visits the cells of a data row in order with the `switch` over the
      column index (first matching `case` wins), then rejects the row if a
      field was never assigned or there are no file-name tokens. */
  method ParseDataRow(row: Row, performerIndex: nat, performer: string)
    returns (r: Result<CsvData, Error>)
    ensures r == ParseRow(row, performerIndex, performer)
  {
    var category: Option<string> := None;
    var folderName: Option<string> := None;
    var priorAct: Option<string> := None;
    var nickName: Option<string> := None;
    var cue: Option<string> := None;
    var globalEndNote: Option<string> := None;
    var tempo: Option<string> := None;
    var startingPerformer: Option<string> := None;
    var performerFileNames: Option<seq<string>> := None;
    var performerPatch: Option<string> := None;
    var performerEndNote: Option<string> := None;

    var columnIndex := 0;
    while columnIndex < |row|
      invariant 0 <= columnIndex <= |row|
      invariant category == Seen(row, 0, columnIndex)
      invariant folderName == Seen(row, 1, columnIndex)
      invariant priorAct == Seen(row, 2, columnIndex)
      invariant nickName == Seen(row, 3, columnIndex)
      invariant cue == Seen(row, 4, columnIndex)
      invariant globalEndNote == Seen(row, 5, columnIndex)
      invariant tempo == Seen(row, 6, columnIndex)
      invariant startingPerformer == Seen(row, 7, columnIndex)
      invariant performerFileNames ==
        if FixedColumns <= performerIndex < columnIndex
        then Some(SplitTokens(row[performerIndex], '|')) else None
      invariant performerPatch == SeenPerformer(row, performerIndex + 1, columnIndex)
      invariant performerEndNote == SeenPerformer(row, performerIndex + 2, columnIndex)
    {
      var cell := row[columnIndex];
      if columnIndex == 0 {
        category := Some(cell);
      } else if columnIndex == 1 {
        folderName := Some(cell);
      } else if columnIndex == 2 {
        priorAct := Some(cell);
      } else if columnIndex == 3 {
        nickName := Some(cell);
      } else if columnIndex == 4 {
        cue := Some(cell);
      } else if columnIndex == 5 {
        globalEndNote := Some(cell);
      } else if columnIndex == 6 {
        tempo := Some(cell);
      } else if columnIndex == 7 {
        startingPerformer := Some(cell);
      } else if columnIndex == performerIndex {
        performerFileNames := Some(SplitTokens(cell, '|'));
      } else if columnIndex == performerIndex + 1 {
        performerPatch := Some(cell);
      } else if columnIndex == performerIndex + 2 {
        performerEndNote := Some(cell);
      }
      columnIndex := columnIndex + 1;
    }

    if category.None? || folderName.None? || priorAct.None? || nickName.None? ||
       cue.None? || globalEndNote.None? || tempo.None? || startingPerformer.None? ||
       performerFileNames.None? || |performerFileNames.value| == 0 ||
       performerPatch.None? || performerEndNote.None?
    {
      return Err(RowIncomplete(performer));
    }
    r := Ok(CsvData(category.value, folderName.value, priorAct.value, nickName.value,
                    cue.value, globalEndNote.value, tempo.value, startingPerformer.value,
                    performerFileNames.value, performerPatch.value, performerEndNote.value));
  }

  // ------------------------------------------------------------ all rows

  /** Parsing one data row against a fixed performer index, as a step of the
      ordered fold over the data rows. */
  function RowStep(performerIndex: nat, performer: string): Row -> Result<CsvData, Error>
  {
    row => ParseRow(row, performerIndex, performer)
  }

  /** The outcome of the extraction: row 0 is the header, row 1 is skipped,
      every later row is a data row. A missing performer is reported only
      when there is a data row to parse. */
  function Extract(performer: string, rows: seq<Row>): Result<seq<CsvData>, Error>
  {
    if |rows| <= 2 then Ok([])
    else
      match LastIndexOf(rows[0], performer)
      case None => Err(PerformerNotFound(performer))
      case Some(performerIndex) => MapAll(rows[2..], RowStep(performerIndex, performer))
  }

  /** The row loop: scans the header at row 0, passes over row 1, and parses
      and collects every later row, failing at the first row that cannot be
      parsed. */
  method ExtractCsvDatas(performer: string, rows: seq<Row>) returns (r: Result<seq<CsvData>, Error>)
    ensures r == Extract(performer, rows)
  {
    var rowIndex := 0;
    var performerIndex: Option<nat> := None;
    var csvDatas: seq<CsvData> := [];
    while rowIndex < |rows|
      invariant 0 <= rowIndex <= |rows|
      invariant rowIndex >= 1 ==> performerIndex == LastIndexOf(rows[0], performer)
      invariant rowIndex <= 2 ==> csvDatas == []
      invariant rowIndex > 2 ==> performerIndex.Some?
      invariant rowIndex >= 2 && performerIndex.Some? ==>
        MapAll(rows[2..rowIndex], RowStep(performerIndex.value, performer)) == Ok(csvDatas)
    {
      if rowIndex == 0 {
        performerIndex := FindPerformerIndex(rows[0], performer);
      } else if rowIndex == 1 {
        // the second row holds nothing this pipeline reads
      } else {
        if performerIndex.None? {
          return Err(PerformerNotFound(performer));
        }
        var step := RowStep(performerIndex.value, performer);
        var record := ParseDataRow(rows[rowIndex], performerIndex.value, performer);
        assert rows[2..rowIndex + 1] == rows[2..rowIndex] + [rows[rowIndex]];
        MapAllSnoc(rows[2..rowIndex], rows[rowIndex], step);
        if record.Err? {
          assert rows[2..][..rowIndex + 1 - 2] == rows[2..rowIndex + 1];
          MapAllFailedPrefix(rows[2..], rowIndex + 1 - 2, step);
          return Err(record.error);
        }
        csvDatas := csvDatas + [record.value];
      }
      rowIndex := rowIndex + 1;
    }
    if |rows| > 2 {
      assert rows[2..rowIndex] == rows[2..];
    }
    r := Ok(csvDatas);
  }

  // ------------------------------------------------------------ properties

  /** One record per data row, in row order: record `k` is what row `k + 2`
      yields. */
  lemma ExtractOnePerRow(performer: string, rows: seq<Row>)
    requires Extract(performer, rows).Ok?
    ensures |Extract(performer, rows).value| == if |rows| <= 2 then 0 else |rows| - 2
    ensures |rows| > 2 ==> performer in rows[0]
    ensures |rows| > 2 ==>
      forall k :: 0 <= k < |rows| - 2 ==>
        ParseRow(rows[k + 2], LastIndexOf(rows[0], performer).value, performer)
          == Ok(Extract(performer, rows).value[k])
  {
    if |rows| > 2 {
      var step := RowStep(LastIndexOf(rows[0], performer).value, performer);
      MapAllOk(rows[2..], step);
      assert forall k :: 0 <= k < |rows| - 2 ==> rows[2..][k] == rows[k + 2];
    }
  }

  /** When extraction fails, and with which error: with two rows or fewer it
      never fails, even if the header lacks the performer; otherwise a missing
      performer fails it, and else it fails exactly when some data row is
      not accepted. */
  lemma ExtractOutcome(performer: string, rows: seq<Row>)
    ensures |rows| <= 2 ==> Extract(performer, rows) == Ok([])
    ensures |rows| > 2 && performer !in rows[0] ==>
      Extract(performer, rows) == Err(PerformerNotFound(performer))
    ensures |rows| > 2 && performer in rows[0] ==>
      (Extract(performer, rows).Ok? <==>
         forall k :: 2 <= k < |rows| ==> RowAccepted(rows[k], LastIndexOf(rows[0], performer).value)) &&
      (Extract(performer, rows).Err? ==> Extract(performer, rows).error == RowIncomplete(performer))
  {
    if |rows| > 2 && performer in rows[0] {
      var step := RowStep(LastIndexOf(rows[0], performer).value, performer);
      var data := rows[2..];
      MapAllOk(data, step);
      assert forall k :: 0 <= k < |data| ==> data[k] == rows[k + 2];
      assert forall k :: 2 <= k < |rows| ==> rows[k] == data[k - 2];
      if Extract(performer, rows).Err? {
        MapAllFirstError(data, step);
      }
    }
  }

  /** A performer whose last header match is one of the fixed columns 0..7
      gets every data row rejected: the fixed `case` takes that column, so
      the file-name field is never assigned. */
  lemma ColumnCollisionRejects(performer: string, rows: seq<Row>)
    requires |rows| > 2 && performer in rows[0]
    requires LastIndexOf(rows[0], performer).value < FixedColumns
    ensures Extract(performer, rows) == Err(RowIncomplete(performer))
  {
    ExtractOutcome(performer, rows);
    assert !RowAccepted(rows[2], LastIndexOf(rows[0], performer).value);
  }

  /** Every extracted record has at least one file-name token, and every
      token is non-empty and free of `|`. */
  lemma ExtractTokensWellFormed(performer: string, rows: seq<Row>)
    requires Extract(performer, rows).Ok?
    ensures forall d :: d in Extract(performer, rows).value ==>
      d.performerFileNames != [] &&
      forall t :: t in d.performerFileNames ==> t != [] && '|' !in t
  {
    var ds := Extract(performer, rows).value;
    ExtractOnePerRow(performer, rows);
    forall d | d in ds
      ensures d.performerFileNames != [] &&
        forall t :: t in d.performerFileNames ==> t != [] && '|' !in t
    {
      var k :| 0 <= k < |ds| && ds[k] == d;
      var pi := LastIndexOf(rows[0], performer).value;
      SplitTokensFacts(rows[k + 2][pi], '|');
    }
  }
}
