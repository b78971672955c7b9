/** The records passed between the stages of the booklet pipeline, and the
    failures that abort a performer's run. */
module Types {

  import opened Wrappers

  /** One spreadsheet row, already split into cells. */
  type Row = seq<string>

  /** One song as seen by one performer: the eight fixed columns and the
      performer's three columns (file-name tokens, patch, end note).
      `category` is the spreadsheet's first column (called `type` in the
      program). */
  datatype CsvData = CsvData(
    category: string,
    folderName: string,
    priorAct: string,
    nickName: string,
    cue: string,
    globalEndNote: string,
    tempo: string,
    startingPerformer: string,
    performerFileNames: seq<string>,
    performerPatch: string,
    performerEndNote: string)

  /** What to place in the booklet for one song: all pages of `pdfPath`
      when the performer plays, or the first page of `donorPdf` when the
      performer rests, plus the annotation texts. */
  datatype DocumentInformation = DocumentInformation(
    pdfPath: Option<string>,
    donorPdf: Option<string>,
    tempo: string,
    cue: string,
    patch: string,
    endNote: string)

  /** The thrown errors, each with the data its message is built from. */
  datatype Error =
    | PerformerNotFound(performer: string)
    | RowIncomplete(performer: string)
    | NoPdfsForSong(category: string, folderName: string)
      /** `available` are the lower-cased base names printed just before
          this error is thrown. */
    | NoPdfsForPerformer(performer: string, category: string, folderName: string,
                         fileNames: seq<string>, available: seq<string>)
    | MissingPdfPath
}
