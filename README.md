# pdf-show-combiner, modelled in Dafny

pdf-show-combiner builds one performer's sheet-music booklet for a show from
a tab-separated spreadsheet and a folder of PDF files. The run happens in
three stages, and each stage is modelled here as an imperative method proved
equal to a specification function. Lemmas then state the properties of those
functions.

1. **Row extraction** (`RowExtraction`). Row 0 is the header. It is scanned
   for the performer's column, and the last exact match wins. Row 1 is
   skipped. Every later row becomes a `CsvData` record holding:
   - the eight fixed columns;
   - the performer's three columns: the file-name tokens (the cell split on
     `|`, with empty pieces dropped), the patch and the end note.

   A row fails when a field is never assigned or when it has no tokens.
   The `switch` over column indices lets the first matching `case` win. A
   performer column that falls on a fixed column 0..7 is therefore never
   assigned, and every data row is rejected.
2. **Resolution** (`Resolution`). Each record is resolved against the PDF
   files enumerated for its song folder:
   - **Rest** (tokens exactly `["-"]`): the first page of the shortest path
     is used. The reduce keeps its accumulator unless the next path is
     strictly shorter, so a tie goes to the earlier path.
   - **Playing**: a file qualifies when its lower-cased base name contains
     some lower-cased token and no `^`-token's remainder. A single
     qualifying file is used as is. With several, the longest path wins,
     and a tie goes to the later path.

   An empty folder fails the song in both cases, and so does a folder with
   no qualifying file. Resolution also derives the cue line
   (`trim(startingPerformer + ' "' + cue + '"')`) and the end note (the
   performer's own, or else the song's).
3. **Assembly** (`Assembly`). Each placement contributes pages to the
   booklet:
   - a placement with its own PDF contributes all of its pages;
   - a donor placement contributes one page.

   On the first page of a placement the tempo (labelled `tempo: `), the cue
   and the patch are drawn, each only if non-empty. On its last page the end
   note is drawn, if non-empty. The booklet keeps the placements in order
   and is written as `<performer>.pdf`. The destination document is a
   `Destination` object whose page list only ever grows by `AddPage`.

`Pipeline` composes the three stages, as `main` does for its one performer.

The JavaScript built-ins the code relies on are written out in `Text`:
- ASCII `toLowerCase`;
- `includes`;
- `path.basename`;
- `trim` over the ECMAScript white-space set;
- `split` with `filter(Boolean)`;
- `.length` counted in UTF-16 code units.

`Wrappers` holds `Option`, `Result` and the ordered fold that stops at the
first failure, which every stage is built on.

Two points where a reader may expect otherwise, and where the model follows
the code:
- **A performer column that coincides with a fixed column.** One might
  expect the later assignment to win. In the code the fixed `case` is
  matched first, so the performer field stays unassigned and the row is
  rejected (`ColumnCollisionRejects`).
- **The "no PDFs for performer" failure.** The code logs the lower-cased
  base names just before it throws, and the thrown message lists the tokens,
  not the base names. The modelled error carries both, so the base names
  stand for the logged line.

## Model

| member | source | states |
|---|---|---|
| RowExtraction.LastIndexOf | mod.ts:44-51 | the index returned holds the performer and no later header cell does; it is absent exactly when the performer is not in the header |
| RowExtraction.FindPerformerIndex | mod.ts:44-51 | the header loop, which never breaks, ends with the index of the last exact match, or none |
| RowExtraction.ParseDataRow | mod.ts:61-148 | the cell loop with its first-case-wins `switch` and the undefined-field check yields exactly the fixed columns and the performer's three columns, or the rejection |
| RowExtraction.ExtractCsvDatas | mod.ts:40-152 | the row loop equals the fold: header at row 0, row 1 skipped, a missing performer fails only on reaching row 2, and the first bad row fails the whole extraction |
| RowExtraction.ExtractOnePerRow | mod.ts:52-150 | a successful extraction has one record per row from index 2 on, in row order, record k being what row k+2 yields, and the performer is in the header |
| RowExtraction.ExtractOutcome | mod.ts:54-134 | at most two rows give `[]` even without the performer; otherwise a missing performer fails; otherwise success holds iff every data row is accepted, and the error is then the incomplete-row error |
| RowExtraction.ColumnCollisionRejects | mod.ts:75-109 | a performer index among the fixed columns 0..7 rejects the data rows |
| RowExtraction.ExtractTokensWellFormed | mod.ts:101-123 | every record has at least one file-name token, and every token is non-empty and free of the bar separator |
| Text.Split | mod.ts:101 | `split` always yields at least one piece and no piece contains the separator |
| Text.JoinSplit | mod.ts:101 | joining the pieces of `split` with the separator gives back the cell |
| Text.SplitTokensFacts | mod.ts:101 | splitting on the bar and dropping empty pieces gives non-empty separator-free tokens whose concatenation is the cell minus its separators, and gives none exactly when the cell holds only separators |
| Text.Lower | mod.ts:222-236 | lower-casing keeps the length |
| Text.LowerFacts | mod.ts:221-236 | lower-casing maps each character on its own, is idempotent and keeps a leading `^` |
| Text.ContainsIff | mod.ts:222-236 | `includes` holds exactly when the needle occurs at some position |
| Text.BasenameIsLastSegment | mod.ts:222-223 | the base name has no `/`, is a suffix of the path, and is preceded by a `/` or reaches the path's start |
| Text.TrimStart | mod.ts:195 | trimming the start drops only white space and leaves a non-space first character, or nothing |
| Text.TrimEnd | mod.ts:195 | trimming the end drops only white space and leaves a non-space last character, or nothing |
| Text.TrimQuotedKeepsBody | mod.ts:195 | trimming the cue line never cuts into the quoted cue, so the line ends with it |
| Text.TrimQuotedPlain | mod.ts:195 | a cue line whose performer name starts with a non-space is left unchanged by trimming |
| Text.TrimQuotedBlank | mod.ts:195 | a cue line whose performer name is blank trims to only the quoted cue |
| Resolution.ShortestIsFirstMinimal | mod.ts:189-191 | the shortest-path reduce returns a path of minimal JavaScript length, the earliest such |
| Resolution.LongestIsLastMaximal | mod.ts:262-264 | the longest-path reduce returns a path of maximal JavaScript length, the latest such |
| Resolution.MatchFile | mod.ts:216-242 | the token loop with its flags and `break` accepts a file exactly when `Qualifies` holds |
| Resolution.QualifiesIff | mod.ts:216-242 | a file qualifies iff its lower-cased base name contains some lower-cased token and no `^`-token's lower-cased remainder |
| Resolution.QualifiesOrderIndependent | mod.ts:219-238 | despite the `break`, the verdict depends only on which tokens are present, not on their order, so exclusion wins wherever it appears |
| Resolution.PossiblePdfPaths | mod.ts:215-242 | the file loop collects exactly the qualifying files in enumeration order |
| Resolution.FilterSpec | mod.ts:215-242 | the kept files are exactly the files that pass, and they form a subsequence of the enumeration |
| Resolution.CandidatesSpec | mod.ts:215-242 | the qualifying list holds exactly the enumerated files that qualify, as a subsequence of the enumeration; more precisely it is the enumeration read at exactly the qualifying positions, in increasing order, so repeated paths keep their multiplicity |
| Resolution.ChosenIsLastLongestKept | mod.ts:255-267 | whether the only candidate is taken or the longest-path reduce runs over several, the chosen path is a qualifying file of maximal length among the qualifying ones, the last such |
| Resolution.ResolveRecord | mod.ts:170-277 | one iteration of the record loop computes the rest or playing placement, or the empty-folder or no-match error |
| Resolution.RestCaseChoice | mod.ts:171-199 | in the rest case an empty folder fails the song; otherwise only a donor is set, and it is a path of minimal length, the earliest such |
| Resolution.PlayingCaseChoice | mod.ts:200-276 | in the playing case success holds iff some file qualifies; an empty folder fails the song; no match fails with every lower-cased base name listed; success sets only the path, the last longest qualifying file |
| Resolution.PlacementAnnotations | mod.ts:193-198 | tempo and patch are copied, the cue ends with the quoted cue, and the end note is the performer's unless that is empty, then the song's |
| Resolution.CueTextEndsQuoted | mod.ts:195 | the cue line always ends with the double-quoted cue, so it is never empty |
| Resolution.CueTextForms | mod.ts:271 | the cue line is the performer, a space and the quoted cue verbatim when the name starts with a non-space, and only the quoted cue when the name is blank |
| Resolution.ExtractDocumentInformations | mod.ts:161-280 | the record loop equals the fold of `Resolve` over the records, each against its folder's enumeration, failing at the first record that fails |
| Resolution.ResolveAllOnePerRecord | mod.ts:169-279 | resolution succeeds iff every record resolves, with one placement per record in record order; a placement is a donor exactly for a rest record, and its path comes from that record's own folder |
| Assembly.Destination.AddPage | mod.ts:365 | appending a page extends the destination's page list by exactly that page at its end |
| Assembly.AppendPlacement | mod.ts:302-366 | for a placement without a truthy PDF or donor path the result is the missing-path error and the destination is unchanged; otherwise the destination's pages grow by exactly `Block(...)`: all pages of the PDF, or the donor's first page, each with the texts its position calls for |
| Assembly.CombineDocuments | mod.ts:282-372 | the placement loop over a fresh destination equals `Combine`: every placement's pages in order, a placement without a truthy path failing the run |
| Assembly.FirstPageMembers | mod.ts:320-351 | the first-page texts are the labelled tempo, the cue and the patch, each present exactly when non-empty, and nothing else |
| Assembly.OverlaysOnPage | mod.ts:320-363 | tempo (labelled), cue and patch are drawn on a page iff it is the first page and they are non-empty; the end note iff it is the last page and non-empty; nothing else is drawn |
| Assembly.CombineOutcome | mod.ts:300-315 | the booklet is built iff every placement has a truthy PDF or donor path; otherwise the error is the missing path |
| Assembly.CombineLayout | mod.ts:300-371 | the booklet `<performer>.pdf` has the placements' page counts summed as its length, and the pages of placement k sit right after those of the earlier placements |
| Assembly.SumLengthsIsTotalPages | mod.ts:304-317 | blocks of the sizes the placements copy (all pages for a PDF, one for a donor) add up to the total page count |
| Pipeline.BuildBooklet | mod.ts:382-392 | running the three stages one after the other gives the composed result, the first failing stage's error otherwise |
| Pipeline.ResolvedPlacementsHaveSource | mod.ts:304-310 | with non-empty enumerated paths, every resolved placement names a file, a rest placement copies one page and a playing placement all pages of its file |
| Pipeline.BuildOutcome | mod.ts:382-392 | with non-empty enumerated paths, the run fails exactly when extraction or resolution fails; a booklet's page count is one per rest song plus the chosen file's pages per playing song, over one record per data row |

## Left out

- File and spreadsheet I/O (`Deno.open`, `readCSV`, `Deno.readFileSync`, `Deno.writeFileSync`). The rows are an input already split into cells. The output file is represented only by its name.
- Globbing (`expandGlob`). Each song's enumeration is the result of a `glob` function parameter applied to the pattern the code builds. Its order is whatever the parameter returns.
- PDF engine internals (`PDFDocument.load`/`create`/`copyPages`/`save`/`getPageCount`). A loaded file's page count is a `pageCount` function parameter, and a copied page is recorded only as its source and page index.
- Fonts, font sizes, colours and the floating-point text coordinates. Each drawn text keeps only its role and its string.
- Copying page 0 of a donor file that has no pages. The engine reports this, but the model does not: a donor placement always contributes one page.
- `console.log` diagnostics. The base names logged before the "no PDFs for performer" error are kept inside that error value instead.
- The spreadsheet path in the error messages. Errors carry only the performer, song and tokens.
- Command-line parsing and the loop over performers in `main`. The model builds one performer's booklet.
- The missing `await` on the assembly call, and concurrency in general. Each stage runs to completion before the next one starts.
- Text.Lower: lower-cases ASCII letters only. Full Unicode case mapping is not modelled.
- Text.Basename: the base name is the part after the last `/`. Trailing-slash stripping and Windows separators are not modelled, because enumerated PDF paths never end in a separator.
- Pipeline.BuildOutcome: assumes, as `expandGlob` guarantees, that enumerated paths are non-empty. An empty path would be falsy and would fail assembly with the missing-path error.
