/** Assembly planning: which pages of which PDF files the combined booklet
    receives, in which order, and which annotation texts are drawn on each
    page. The PDF engine is abstracted to the number of pages of each file
    and a list of drawn texts per page. */
module Assembly {

  import opened Wrappers
  import opened Types

  /** What a drawn text is: its font, colour and position follow from it. */
  datatype Role = Tempo | Cue | Patch | EndNote

  datatype Overlay = Overlay(role: Role, text: string)

  /** Page `index` of the file `source`, copied with the texts drawn on it. */
  datatype Page = Page(source: string, index: nat, overlays: seq<Overlay>)

  /** The combined document and the name it is written under. */
  datatype Booklet = Booklet(fileName: string, pages: seq<Page>)

  /** The destination document, to which copied pages are appended. */
  class Destination {
    var pages: seq<Page>

    constructor()
      ensures pages == []
    {
      pages := [];
    }

    method AddPage(page: Page)
      modifies this
      ensures pages == old(pages) + [page]
    {
      pages := pages + [page];
    }
  }

  // ------------------------------------------------------------ one placement

  /** JavaScript truthiness of an optional string: absent and empty are
      falsy. */
  predicate Truthy(o: Option<string>)
  {
    o.Some? && o.value != ""
  }

  /** A placement names a file to copy from. */
  predicate HasSource(info: DocumentInformation)
  {
    Truthy(info.pdfPath) || Truthy(info.donorPdf)
  }

  /** The file a placement copies from: its own PDF before the donor. */
  function SourcePath(info: DocumentInformation): string
    requires HasSource(info)
  {
    if Truthy(info.pdfPath) then info.pdfPath.value else info.donorPdf.value
  }

  /** The number of pages a placement copies: every page of its own PDF, or
      the first page of the donor; `pageCount` is the engine's page count
      of a loaded file. */
  function CopiedPages(info: DocumentInformation, pageCount: string -> nat): nat
  {
    if Truthy(info.pdfPath) then pageCount(info.pdfPath.value)
    else if Truthy(info.donorPdf) then 1
    else 0
  }

  /** The texts drawn on the first page of a placement, in drawing order;
      each only when it is non-empty. */
  function FirstPageOverlays(info: DocumentInformation): seq<Overlay>
  {
    (if info.tempo != "" then [Overlay(Tempo, "tempo: " + info.tempo)] else []) +
    (if info.cue != "" then [Overlay(Cue, info.cue)] else []) +
    (if info.patch != "" then [Overlay(Patch, info.patch)] else [])
  }

  /** The texts drawn on page `i` of a placement of `total` pages. */
  function Overlays(info: DocumentInformation, i: nat, total: nat): seq<Overlay>
  {
    (if i == 0 then FirstPageOverlays(info) else []) +
    (if i == total - 1 && info.endNote != "" then [Overlay(EndNote, info.endNote)] else [])
  }

  /** The pages a placement contributes, in page order. */
  function BlockPages(info: DocumentInformation, pageCount: string -> nat): seq<Page>
    requires HasSource(info)
  {
    var total := CopiedPages(info, pageCount);
    seq(total, i requires 0 <= i < total => Page(SourcePath(info), i, Overlays(info, i, total)))
  }

  /** A placement without a file to copy from is an error. */
  function Block(info: DocumentInformation, pageCount: string -> nat): Result<seq<Page>, Error>
  {
    if HasSource(info) then Ok(BlockPages(info, pageCount)) else Err(MissingPdfPath)
  }

  function BlockStep(pageCount: string -> nat): DocumentInformation -> Result<seq<Page>, Error>
  {
    info => Block(info, pageCount)
  }

  /** The booklet for a performer: the blocks of all placements in order,
      written to `<performer>.pdf`; the first placement without a file
      aborts. */
  function Combine(performer: string, infos: seq<DocumentInformation>, pageCount: string -> nat)
    : Result<Booklet, Error>
  {
    match MapAll(infos, BlockStep(pageCount))
    case Err(e) => Err(e)
    case Ok(blocks) => Ok(Booklet(performer + ".pdf", Flatten(blocks)))
  }

  /** The page loop for one placement: copies each page, draws the texts
      that belong on it and appends it to the destination. */
  method AppendPlacement(dstDoc: Destination, docInfo: DocumentInformation, pageCount: string -> nat)
    returns (r: Result<(), Error>)
    modifies dstDoc
    ensures Block(docInfo, pageCount).Err? ==> r == Err(MissingPdfPath) && dstDoc.pages == old(dstDoc.pages)
    ensures Block(docInfo, pageCount).Ok? ==>
      r == Ok(()) && dstDoc.pages == old(dstDoc.pages) + Block(docInfo, pageCount).value
  {
    var source: string;
    var totalPages: nat;
    if Truthy(docInfo.pdfPath) {
      source := docInfo.pdfPath.value;
      totalPages := pageCount(source);
    } else if Truthy(docInfo.donorPdf) {
      source := docInfo.donorPdf.value;
      totalPages := 1;
    } else {
      return Err(MissingPdfPath);
    }
    ghost var block := BlockPages(docInfo, pageCount);
    var i := 0;
    while i < totalPages
      invariant 0 <= i <= totalPages
      invariant dstDoc.pages == old(dstDoc.pages) + block[..i]
    {
      var overlays: seq<Overlay> := [];
      if i == 0 {
        if docInfo.tempo != "" {
          overlays := overlays + [Overlay(Tempo, "tempo: " + docInfo.tempo)];
        }
        if docInfo.cue != "" {
          overlays := overlays + [Overlay(Cue, docInfo.cue)];
        }
        if docInfo.patch != "" {
          overlays := overlays + [Overlay(Patch, docInfo.patch)];
        }
        assert overlays == FirstPageOverlays(docInfo);
      }
      if i == totalPages - 1 {
        if docInfo.endNote != "" {
          overlays := overlays + [Overlay(EndNote, docInfo.endNote)];
        }
      }
      assert overlays == Overlays(docInfo, i, totalPages);
      assert block[..i + 1] == block[..i] + [Page(source, i, overlays)];
      dstDoc.AddPage(Page(source, i, overlays));
      i := i + 1;
    }
    assert block[..i] == block;
    r := Ok(());
  }

  /** The placement loop: appends every placement's pages to a fresh
      destination document, which becomes the booklet. */
  method CombineDocuments(performer: string, documentInformations: seq<DocumentInformation>,
                          pageCount: string -> nat)
    returns (r: Result<Booklet, Error>)
    ensures r == Combine(performer, documentInformations, pageCount)
  {
    var step := BlockStep(pageCount);
    var dstDoc := new Destination();
    ghost var blocks: seq<seq<Page>> := [];
    var n := 0;
    while n < |documentInformations|
      invariant 0 <= n <= |documentInformations|
      invariant MapAll(documentInformations[..n], step) == Ok(blocks)
      invariant dstDoc.pages == Flatten(blocks)
    {
      var docInfo := documentInformations[n];
      ghost var block := Block(docInfo, pageCount);
      assert step(docInfo) == block;
      assert documentInformations[..n + 1] == documentInformations[..n] + [docInfo];
      MapAllSnoc(documentInformations[..n], docInfo, step);
      var appended := AppendPlacement(dstDoc, docInfo, pageCount);
      if appended.Err? {
        assert MapAll(documentInformations[..n + 1], step) == Err(MissingPdfPath);
        MapAllFailedPrefix(documentInformations, n + 1, step);
        return Err(appended.error);
      }
      assert MapAll(documentInformations[..n + 1], step) == Ok(blocks + [block.value]);
      assert (blocks + [block.value])[..|blocks|] == blocks;
      blocks := blocks + [block.value];
      n := n + 1;
    }
    assert documentInformations[..n] == documentInformations;
    r := Ok(Booklet(performer + ".pdf", dstDoc.pages));
  }

  // ------------------------------------------------------------ properties

  /** The pages a list of placements contributes in total. */
  function TotalPages(infos: seq<DocumentInformation>, pageCount: string -> nat): nat
  {
    if infos == [] then 0
    else TotalPages(infos[..|infos| - 1], pageCount) + CopiedPages(infos[|infos| - 1], pageCount)
  }

  /** Blocks of the sizes the placements copy add up to the total. */
  lemma {:induction false} SumLengthsIsTotalPages(blocks: seq<seq<Page>>, infos: seq<DocumentInformation>,
                                                  pageCount: string -> nat)
    requires |blocks| == |infos|
    requires forall j :: 0 <= j < |infos| ==> |blocks[j]| == CopiedPages(infos[j], pageCount)
    ensures SumLengths(blocks) == TotalPages(infos, pageCount)
  {
    if infos != [] {
      SumLengthsIsTotalPages(blocks[..|blocks| - 1], infos[..|infos| - 1], pageCount);
    }
  }

  /** The first-page texts: tempo, cue and patch, each present exactly when
      non-empty, and never an end note. */
  lemma FirstPageMembers(info: DocumentInformation)
    ensures forall o :: o in FirstPageOverlays(info) ==>
      o == Overlay(Tempo, "tempo: " + info.tempo) || o == Overlay(Cue, info.cue) || o == Overlay(Patch, info.patch)
    ensures Overlay(Tempo, "tempo: " + info.tempo) in FirstPageOverlays(info) <==> info.tempo != ""
    ensures Overlay(Cue, info.cue) in FirstPageOverlays(info) <==> info.cue != ""
    ensures Overlay(Patch, info.patch) in FirstPageOverlays(info) <==> info.patch != ""
  {
    var tempo := if info.tempo != "" then [Overlay(Tempo, "tempo: " + info.tempo)] else [];
    var cue := if info.cue != "" then [Overlay(Cue, info.cue)] else [];
    var patch := if info.patch != "" then [Overlay(Patch, info.patch)] else [];
    assert FirstPageOverlays(info) == tempo + cue + patch;
  }

  /** The texts on page `i` of a placement of `total` pages: tempo (with its
      label), cue and patch exactly on the first page when non-empty, the
      end note exactly on the last page when non-empty, and nothing else. */
  lemma OverlaysOnPage(info: DocumentInformation, i: nat, total: nat)
    requires i < total
    ensures forall o :: o in Overlays(info, i, total) ==>
      o == Overlay(Tempo, "tempo: " + info.tempo) || o == Overlay(Cue, info.cue) ||
      o == Overlay(Patch, info.patch) || o == Overlay(EndNote, info.endNote)
    ensures Overlay(Tempo, "tempo: " + info.tempo) in Overlays(info, i, total) <==> i == 0 && info.tempo != ""
    ensures Overlay(Cue, info.cue) in Overlays(info, i, total) <==> i == 0 && info.cue != ""
    ensures Overlay(Patch, info.patch) in Overlays(info, i, total) <==> i == 0 && info.patch != ""
    ensures Overlay(EndNote, info.endNote) in Overlays(info, i, total) <==> i == total - 1 && info.endNote != ""
  {
    FirstPageMembers(info);
    var first := if i == 0 then FirstPageOverlays(info) else [];
    var last := if i == total - 1 && info.endNote != "" then [Overlay(EndNote, info.endNote)] else [];
    assert Overlays(info, i, total) == first + last;
  }

  /** The booklet is built exactly when every placement names a file;
      otherwise the error is the missing path. */
  lemma CombineOutcome(performer: string, infos: seq<DocumentInformation>, pageCount: string -> nat)
    ensures Combine(performer, infos, pageCount).Ok? <==> forall k :: 0 <= k < |infos| ==> HasSource(infos[k])
    ensures Combine(performer, infos, pageCount).Err? ==> Combine(performer, infos, pageCount).error == MissingPdfPath
  {
    var step := BlockStep(pageCount);
    MapAllOk(infos, step);
    if MapAll(infos, step).Err? {
      MapAllFirstError(infos, step);
    }
  }

  /** A built booklet is written to `<performer>.pdf` and holds the pages of
      the placements back to back, in placement order: the pages of
      placement `k` come right after those of the placements before it. */
  lemma CombineLayout(performer: string, infos: seq<DocumentInformation>, pageCount: string -> nat)
    requires Combine(performer, infos, pageCount).Ok?
    ensures Combine(performer, infos, pageCount).value.fileName == performer + ".pdf"
    ensures |Combine(performer, infos, pageCount).value.pages| == TotalPages(infos, pageCount)
    ensures forall k :: 0 <= k < |infos| ==>
      HasSource(infos[k]) &&
      TotalPages(infos[..k], pageCount) + CopiedPages(infos[k], pageCount) <= TotalPages(infos, pageCount) &&
      Combine(performer, infos, pageCount).value.pages[TotalPages(infos[..k], pageCount)..
        TotalPages(infos[..k], pageCount) + CopiedPages(infos[k], pageCount)] == BlockPages(infos[k], pageCount)
  {
    var step := BlockStep(pageCount);
    MapAllOk(infos, step);
    var blocks := MapAll(infos, step).value;
    var pages := Combine(performer, infos, pageCount).value.pages;
    assert pages == Flatten(blocks);
    forall j | 0 <= j < |infos|
      ensures HasSource(infos[j]) && blocks[j] == BlockPages(infos[j], pageCount)
    {
      assert step(infos[j]) == Ok(blocks[j]);
    }
    SumLengthsIsTotalPages(blocks, infos, pageCount);
    FlattenLength(blocks);
    forall k | 0 <= k < |infos|
      ensures TotalPages(infos[..k], pageCount) + CopiedPages(infos[k], pageCount) <= |pages| &&
        pages[TotalPages(infos[..k], pageCount)..TotalPages(infos[..k], pageCount) + CopiedPages(infos[k], pageCount)] ==
          BlockPages(infos[k], pageCount)
    {
      SumLengthsIsTotalPages(blocks[..k], infos[..k], pageCount);
      FlattenSlice(blocks, k);
    }
  }
}
