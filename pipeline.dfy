/** The whole run for one performer: the spreadsheet rows become song
    records, the records become placements, and the placements become the
    booklet. */
module Pipeline {

  import opened Wrappers
  import opened Types
  import opened RowExtraction
  import opened Resolution
  import opened Assembly

  /** The booklet for a performer, or the first error of the first stage
      that fails; `glob` enumerates the PDF files under a pattern and
      `pageCount` gives the page count of a PDF file. */
  function Build(performer: string, rows: seq<Row>, folderPath: string,
                 glob: string -> seq<string>, pageCount: string -> nat): Result<Booklet, Error>
  {
    match Extract(performer, rows)
    case Err(e) => Err(e)
    case Ok(csvDatas) =>
      match ResolveAll(performer, folderPath, csvDatas, glob)
      case Err(e) => Err(e)
      case Ok(infos) => Combine(performer, infos, pageCount)
  }

  /** The three stages run one after the other. */
  method BuildBooklet(performer: string, rows: seq<Row>, folderPath: string,
                      glob: string -> seq<string>, pageCount: string -> nat)
    returns (r: Result<Booklet, Error>)
    ensures r == Build(performer, rows, folderPath, glob, pageCount)
  {
    var csvDatas := ExtractCsvDatas(performer, rows);
    if csvDatas.Err? {
      return Err(csvDatas.error);
    }
    var documentInformations := ExtractDocumentInformations(performer, folderPath, csvDatas.value, glob);
    if documentInformations.Err? {
      return Err(documentInformations.error);
    }
    r := CombineDocuments(performer, documentInformations.value, pageCount);
  }

  /** Every placement that resolution produces names a file, as long as the
      enumerated paths are non-empty, so the missing-path error of assembly
      cannot occur; a rest placement copies one page and a playing placement
      all pages of its chosen file. */
  lemma ResolvedPlacementsHaveSource(performer: string, folderPath: string, csvDatas: seq<CsvData>,
                                     glob: string -> seq<string>, pageCount: string -> nat)
    requires forall pattern :: "" !in glob(pattern)
    requires ResolveAll(performer, folderPath, csvDatas, glob).Ok?
    ensures var infos := ResolveAll(performer, folderPath, csvDatas, glob).value;
      |infos| == |csvDatas| &&
      forall k :: 0 <= k < |infos| ==>
        HasSource(infos[k]) &&
        (IsRest(csvDatas[k].performerFileNames) ==> CopiedPages(infos[k], pageCount) == 1) &&
        (!IsRest(csvDatas[k].performerFileNames) ==>
           infos[k].pdfPath.Some? && CopiedPages(infos[k], pageCount) == pageCount(infos[k].pdfPath.value))
  {
    ResolveAllOnePerRecord(performer, folderPath, csvDatas, glob);
  }

  /** With non-empty enumerated paths, the run fails exactly when row
      extraction or resolution fails, with that stage's error; a booklet has
      one block of pages per data row, one page for each song the
      performer rests on and all pages of the chosen file for each song they
      play. */
  lemma BuildOutcome(performer: string, rows: seq<Row>, folderPath: string,
                     glob: string -> seq<string>, pageCount: string -> nat)
    requires forall pattern :: "" !in glob(pattern)
    ensures Build(performer, rows, folderPath, glob, pageCount).Ok? <==>
      Extract(performer, rows).Ok? &&
      ResolveAll(performer, folderPath, Extract(performer, rows).value, glob).Ok?
    ensures Extract(performer, rows).Err? ==>
      Build(performer, rows, folderPath, glob, pageCount) == Err(Extract(performer, rows).error)
    ensures Build(performer, rows, folderPath, glob, pageCount).Ok? ==>
      var csvDatas := Extract(performer, rows).value;
      var infos := ResolveAll(performer, folderPath, csvDatas, glob).value;
      |csvDatas| == (if |rows| <= 2 then 0 else |rows| - 2) &&
      |infos| == |csvDatas| &&
      |Build(performer, rows, folderPath, glob, pageCount).value.pages| == TotalPages(infos, pageCount) &&
      forall k :: 0 <= k < |infos| ==>
        (IsRest(csvDatas[k].performerFileNames) ==> CopiedPages(infos[k], pageCount) == 1) &&
        (!IsRest(csvDatas[k].performerFileNames) ==>
           infos[k].pdfPath.Some? && CopiedPages(infos[k], pageCount) == pageCount(infos[k].pdfPath.value))
  {
    if Extract(performer, rows).Ok? {
      var csvDatas := Extract(performer, rows).value;
      ExtractOnePerRow(performer, rows);
      if ResolveAll(performer, folderPath, csvDatas, glob).Ok? {
        var infos := ResolveAll(performer, folderPath, csvDatas, glob).value;
        ResolvedPlacementsHaveSource(performer, folderPath, csvDatas, glob, pageCount);
        CombineOutcome(performer, infos, pageCount);
        CombineLayout(performer, infos, pageCount);
      }
    }
  }
}
