/** Resolution: decides, for every song record, which PDF file the booklet
    uses. A performer who rests on a song (file-name tokens exactly `["-"]`)
    gets the first page of the song's shortest-named file; a performer who
    plays gets all pages of the file matched by their tokens. */
module Resolution {

  import opened Wrappers
  import opened Text
  import opened Types

  // ------------------------------------------------------------ annotations

  /** The rest marker: the performer does not play on this song. */
  predicate IsRest(fileNames: seq<string>)
  {
    |fileNames| == 1 && fileNames[0] == "-"
  }

  /** The cue line: the starting performer, a space and the quoted cue,
      trimmed. */
  function CueText(d: CsvData): string
  {
    Trim(CueLine(d.startingPerformer, d.cue))
  }

  /** `performerEndNote || globalEndNote`: an empty string is falsy. */
  function EndNoteText(d: CsvData): string
  {
    if d.performerEndNote != "" then d.performerEndNote else d.globalEndNote
  }

  /** The placement for a record, with its annotation texts. */
  function Placement(d: CsvData, pdfPath: Option<string>, donorPdf: Option<string>): DocumentInformation
  {
    DocumentInformation(pdfPath, donorPdf, d.tempo, CueText(d), d.performerPatch, EndNoteText(d))
  }

  // ------------------------------------------------------------ tie-breaks

  /** `Array.prototype.reduce` without an initial value. */
  function ReduceLeft<T>(s: seq<T>, f: (T, T) -> T): T
    requires |s| > 0
  {
    if |s| == 1 then s[0] else f(ReduceLeft(s[..|s| - 1], f), s[|s| - 1])
  }

  /** `(a, b) => a.length <= b.length ? a : b` */
  function ShorterOf(a: string, b: string): string
  {
    if JsLength(a) <= JsLength(b) then a else b
  }

  /** `(a, b) => a.length > b.length ? a : b` */
  function LongerOf(a: string, b: string): string
  {
    if JsLength(a) > JsLength(b) then a else b
  }

  function Shortest(paths: seq<string>): string
    requires |paths| > 0
  {
    ReduceLeft(paths, ShorterOf)
  }

  function Longest(paths: seq<string>): string
    requires |paths| > 0
  {
    ReduceLeft(paths, LongerOf)
  }

  /** `paths[k]` is of minimal length, and no earlier path is as short. */
  predicate IsFirstShortest(paths: seq<string>, k: int)
  {
    0 <= k < |paths| &&
    (forall j :: 0 <= j < |paths| ==> JsLength(paths[k]) <= JsLength(paths[j])) &&
    (forall j :: 0 <= j < k ==> JsLength(paths[k]) < JsLength(paths[j]))
  }

  /** `paths[k]` is of maximal length, and no later path is as long. */
  predicate IsLastLongest(paths: seq<string>, k: int)
  {
    0 <= k < |paths| &&
    (forall j :: 0 <= j < |paths| ==> JsLength(paths[j]) <= JsLength(paths[k])) &&
    (forall j :: k < j < |paths| ==> JsLength(paths[j]) < JsLength(paths[k]))
  }

  /** Appending a path keeps the first shortest one unless the new path is
      strictly shorter. */
  lemma FirstShortestSnoc(front: seq<string>, x: string, k: int)
    requires IsFirstShortest(front, k)
    ensures IsFirstShortest(front + [x], if JsLength(front[k]) <= JsLength(x) then k else |front|)
  {
    assert forall j :: 0 <= j < |front| ==> (front + [x])[j] == front[j];
  }

  /** Appending a path replaces the last longest one unless the new path is
      strictly shorter. */
  lemma LastLongestSnoc(front: seq<string>, x: string, k: int)
    requires IsLastLongest(front, k)
    ensures IsLastLongest(front + [x], if JsLength(front[k]) > JsLength(x) then k else |front|)
  {
    assert forall j :: 0 <= j < |front| ==> (front + [x])[j] == front[j];
  }

  /** The shortest-path reduction picks a path of minimal length, and among
      several of that length the earliest. */
  lemma {:induction false} ShortestIsFirstMinimal(paths: seq<string>)
    requires |paths| > 0
    ensures exists k :: IsFirstShortest(paths, k) && paths[k] == Shortest(paths)
  {
    if |paths| == 1 {
      assert IsFirstShortest(paths, 0);
    } else {
      var last := |paths| - 1;
      var front := paths[..last];
      ShortestIsFirstMinimal(front);
      var k0 :| IsFirstShortest(front, k0) && front[k0] == Shortest(front);
      assert paths == front + [paths[last]];
      FirstShortestSnoc(front, paths[last], k0);
      var k := if JsLength(front[k0]) <= JsLength(paths[last]) then k0 else last;
      assert paths[k] == ShorterOf(Shortest(front), paths[last]);
      assert IsFirstShortest(paths, k);
    }
  }

  /** The longest-path reduction picks a path of maximal length, and among
      several of that length the last. */
  lemma {:induction false} LongestIsLastMaximal(paths: seq<string>)
    requires |paths| > 0
    ensures exists k :: IsLastLongest(paths, k) && paths[k] == Longest(paths)
  {
    if |paths| == 1 {
      assert IsLastLongest(paths, 0);
    } else {
      var last := |paths| - 1;
      var front := paths[..last];
      LongestIsLastMaximal(front);
      var k0 :| IsLastLongest(front, k0) && front[k0] == Longest(front);
      assert paths == front + [paths[last]];
      LastLongestSnoc(front, paths[last], k0);
      var k := if JsLength(front[k0]) > JsLength(paths[last]) then k0 else last;
      assert paths[k] == LongerOf(Longest(front), paths[last]);
      assert IsLastLongest(paths, k);
    }
  }

  // ------------------------------------------------------------ matching

  /** The lower-cased base name that tokens are matched against. */
  function MatchName(path: string): string
  {
    Lower(Basename(path))
  }

  /** A token starting with `^` names a substring that rules a file out. */
  predicate IsExclusion(token: string)
  {
    |token| > 0 && token[0] == '^'
  }

  predicate Excludes(name: string, token: string)
  {
    IsExclusion(token) && Contains(name, Lower(token[1..]))
  }

  predicate Includes(name: string, token: string)
  {
    Contains(name, Lower(token))
  }

  /** A file qualifies when some token occurs in its name and no exclusion
      token's remainder does. */
  predicate Qualifies(path: string, tokens: seq<string>)
  {
    var name := MatchName(path);
    (exists k | 0 <= k < |tokens| :: Includes(name, tokens[k])) &&
    !(exists k | 0 <= k < |tokens| :: Excludes(name, tokens[k]))
  }

  /** The token loop for one file: an exclusion hit sets the "not a match"
      flag and leaves the loop, any other hit sets the "match" flag and goes
      on. */
  method MatchFile(pdfPath: string, tokens: seq<string>) returns (qualifies: bool)
    ensures qualifies == Qualifies(pdfPath, tokens)
  {
    var name := MatchName(pdfPath);
    var isMatch := false;
    var isNotMatch := false;
    var k := 0;
    while k < |tokens|
      invariant 0 <= k <= |tokens|
      invariant isMatch == exists j | 0 <= j < k :: Includes(name, tokens[j])
      invariant !exists j | 0 <= j < k :: Excludes(name, tokens[j])
      invariant !isNotMatch
    {
      if IsExclusion(tokens[k]) && Contains(name, Lower(tokens[k][1..])) {
        isNotMatch := true;
        break;
      }
      if Contains(name, Lower(tokens[k])) {
        isMatch := true;
      }
      k := k + 1;
    }
    qualifies := isMatch && !isNotMatch;
  }

  /** A `^` token that occurs in a name also excludes it. */
  lemma ExclusionTokenIncludes(name: string, token: string)
    requires IsExclusion(token) && Includes(name, token)
    ensures Excludes(name, token)
  {
    LowerFacts(token);
    ContainsTail(name, '^', Lower(token[1..]));
  }

  /** An exclusion token never counts as an inclusion: a file qualifies
      exactly when some plain token occurs in its name and no exclusion
      token's remainder does, so exclusion wins whatever the token order. */
  lemma QualifiesIff(path: string, tokens: seq<string>)
    ensures Qualifies(path, tokens) <==>
      (exists k :: 0 <= k < |tokens| && !IsExclusion(tokens[k]) && Includes(MatchName(path), tokens[k])) &&
      (forall k :: 0 <= k < |tokens| && IsExclusion(tokens[k]) ==>
         !Contains(MatchName(path), Lower(tokens[k][1..])))
  {
    var name := MatchName(path);
    forall k | 0 <= k < |tokens| && IsExclusion(tokens[k]) && Includes(name, tokens[k])
      ensures Excludes(name, tokens[k])
    {
      ExclusionTokenIncludes(name, tokens[k]);
    }
  }

  /** Reordering (or repeating) the tokens does not change which files
      qualify. */
  lemma QualifiesOrderIndependent(path: string, tokens: seq<string>, reordered: seq<string>)
    requires forall t :: t in tokens <==> t in reordered
    ensures Qualifies(path, tokens) == Qualifies(path, reordered)
  {
    var name := MatchName(path);
    forall a: seq<string>, b: seq<string> | (forall t :: t in a <==> t in b) && Qualifies(path, a)
      ensures Qualifies(path, b)
    {
      var k :| 0 <= k < |a| && Includes(name, a[k]);
      assert a[k] in a;
      var m :| 0 <= m < |b| && b[m] == a[k];
      assert Includes(name, b[m]);
      forall j | 0 <= j < |b|
        ensures !Excludes(name, b[j])
      {
        assert b[j] in b;
        var i :| 0 <= i < |a| && a[i] == b[j];
        assert !Excludes(name, a[i]);
      }
    }
  }

  /** The files `keep` accepts, in their original order. */
  function Filter(files: seq<string>, keep: string -> bool): seq<string>
  {
    if files == [] then []
    else
      Filter(files[..|files| - 1], keep) +
      (if keep(files[|files| - 1]) then [files[|files| - 1]] else [])
  }

  function QualifiesFor(tokens: seq<string>): string -> bool
  {
    path => Qualifies(path, tokens)
  }

  /** The qualifying files, in enumeration order. */
  function Candidates(files: seq<string>, tokens: seq<string>): seq<string>
  {
    Filter(files, QualifiesFor(tokens))
  }

  /** The file loop: keeps each file whose token loop says it qualifies. */
  method PossiblePdfPaths(allFilePaths: seq<string>, tokens: seq<string>)
    returns (possiblePdfPaths: seq<string>)
    ensures possiblePdfPaths == Candidates(allFilePaths, tokens)
  {
    var keep := QualifiesFor(tokens);
    possiblePdfPaths := [];
    var i := 0;
    while i < |allFilePaths|
      invariant 0 <= i <= |allFilePaths|
      invariant possiblePdfPaths == Filter(allFilePaths[..i], keep)
    {
      assert allFilePaths[..i + 1][..i] == allFilePaths[..i];
      var qualifies := MatchFile(allFilePaths[i], tokens);
      assert qualifies == keep(allFilePaths[i]);
      if qualifies {
        possiblePdfPaths := possiblePdfPaths + [allFilePaths[i]];
      }
      i := i + 1;
    }
    assert allFilePaths[..i] == allFilePaths;
  }

  /** `idx` maps each element of `q` to a position of `s` holding it, with
      positions strictly increasing. */
  ghost predicate Embeds(idx: seq<int>, q: seq<string>, s: seq<string>)
  {
    |idx| == |q| &&
    (forall k :: 0 <= k < |q| ==> 0 <= idx[k] < |s| && s[idx[k]] == q[k]) &&
    (forall k1, k2 :: 0 <= k1 < k2 < |q| ==> idx[k1] < idx[k2])
  }

  ghost predicate IsSubsequence(q: seq<string>, s: seq<string>)
  {
    exists idx :: Embeds(idx, q, s)
  }

  /** The positions of the kept files. */
  ghost function KeptPositions(files: seq<string>, keep: string -> bool): seq<int>
  {
    if files == [] then []
    else
      KeptPositions(files[..|files| - 1], keep) +
      (if keep(files[|files| - 1]) then [|files| - 1] else [])
  }

  lemma {:induction false} KeptPositionsEmbed(files: seq<string>, keep: string -> bool)
    ensures Embeds(KeptPositions(files, keep), Filter(files, keep), files)
    ensures forall k :: 0 <= k < |KeptPositions(files, keep)| ==> KeptPositions(files, keep)[k] < |files|
    ensures forall j :: 0 <= j < |files| ==> (j in KeptPositions(files, keep) <==> keep(files[j]))
  {
    if files != [] {
      var front := files[..|files| - 1];
      KeptPositionsEmbed(front, keep);
      assert forall k :: 0 <= k < |front| ==> front[k] == files[k];
      assert |front| !in KeptPositions(front, keep);
    }
  }

  /** Filtering keeps exactly the accepted files, in their original order:
      the result is a subsequence of the input. */
  lemma {:induction false} FilterSpec(files: seq<string>, keep: string -> bool)
    ensures forall f :: f in Filter(files, keep) <==> f in files && keep(f)
    ensures IsSubsequence(Filter(files, keep), files)
  {
    KeptPositionsEmbed(files, keep);
    if files != [] {
      var front := files[..|files| - 1];
      FilterSpec(front, keep);
      assert files == front + [files[|files| - 1]];
    }
  }

  /** The qualifying files are exactly the files that qualify, kept in
      enumeration order: a subsequence of the enumeration. */
  lemma CandidatesSpec(files: seq<string>, tokens: seq<string>)
    ensures forall f :: f in Candidates(files, tokens) <==> f in files && Qualifies(f, tokens)
    ensures IsSubsequence(Candidates(files, tokens), files)
    ensures Embeds(KeptPositions(files, QualifiesFor(tokens)), Candidates(files, tokens), files)
    ensures forall j :: 0 <= j < |files| ==>
      (j in KeptPositions(files, QualifiesFor(tokens)) <==> Qualifies(files[j], tokens))
  {
    FilterSpec(files, QualifiesFor(tokens));
    KeptPositionsEmbed(files, QualifiesFor(tokens));
  }

  /** Several qualifying files: the longest path; exactly one: that one. */
  function Choose(possible: seq<string>): string
    requires |possible| > 0
  {
    if |possible| > 1 then Longest(possible) else possible[0]
  }

  /** `files[k]` is accepted, no accepted file has a longer path, and no
      accepted file after it has a path as long. */
  predicate IsLastLongestKept(files: seq<string>, keep: string -> bool, k: int)
  {
    0 <= k < |files| && keep(files[k]) &&
    forall j :: 0 <= j < |files| && keep(files[j]) ==>
      JsLength(files[j]) <= JsLength(files[k]) && (k < j ==> JsLength(files[j]) < JsLength(files[k]))
  }

  /** Appending a file keeps the last longest accepted one unless the new
      file is accepted and not strictly shorter. */
  lemma LastLongestKeptSnoc(front: seq<string>, x: string, keep: string -> bool, k: int)
    requires IsLastLongestKept(front, keep, k)
    ensures !keep(x) ==> IsLastLongestKept(front + [x], keep, k)
    ensures keep(x) ==>
      IsLastLongestKept(front + [x], keep, if JsLength(front[k]) > JsLength(x) then k else |front|)
  {
    assert forall j :: 0 <= j < |front| ==> (front + [x])[j] == front[j];
  }

  /** Choosing among the accepted files picks the last accepted file of
      maximal path length. */
  lemma {:induction false} ChosenIsLastLongestKept(files: seq<string>, keep: string -> bool)
    requires Filter(files, keep) != []
    ensures exists k :: IsLastLongestKept(files, keep, k) && files[k] == Choose(Filter(files, keep))
  {
    var last := |files| - 1;
    var front := files[..last];
    var x := files[last];
    var before := Filter(front, keep);
    var all := Filter(files, keep);
    assert files == front + [x];
    if !keep(x) {
      assert all == before;
      ChosenIsLastLongestKept(front, keep);
      var k0 :| IsLastLongestKept(front, keep, k0) && front[k0] == Choose(before);
      LastLongestKeptSnoc(front, x, keep, k0);
      assert files[k0] == Choose(all);
    } else if before == [] {
      FilterSpec(front, keep);
      assert all == [x];
      forall j | 0 <= j < last
        ensures !keep(files[j])
      {
        assert front[j] in front && front[j] !in before;
      }
      assert IsLastLongestKept(files, keep, last);
    } else {
      ChosenIsLastLongestKept(front, keep);
      var k0 :| IsLastLongestKept(front, keep, k0) && front[k0] == Choose(before);
      assert all == before + [x];
      assert all[..|all| - 1] == before;
      assert Longest(before) == Choose(before);
      assert Choose(all) == LongerOf(Choose(before), x);
      LastLongestKeptSnoc(front, x, keep, k0);
      var k := if JsLength(front[k0]) > JsLength(x) then k0 else last;
      assert files[k] == Choose(all);
    }
  }

  // ------------------------------------------------------------ one record

  /** The lower-cased base names listed when no file qualifies. */
  function BaseNames(files: seq<string>): seq<string>
  {
    seq(|files|, i requires 0 <= i < |files| => MatchName(files[i]))
  }

  /** The placement for one record given the song folder's PDF files. */
  function Resolve(d: CsvData, files: seq<string>, performer: string): Result<DocumentInformation, Error>
  {
    if files == [] then Err(NoPdfsForSong(d.category, d.folderName))
    else if IsRest(d.performerFileNames) then Ok(Placement(d, None, Some(Shortest(files))))
    else
      var possible := Candidates(files, d.performerFileNames);
      if possible == [] then
        Err(NoPdfsForPerformer(performer, d.category, d.folderName, d.performerFileNames, BaseNames(files)))
      else Ok(Placement(d, Some(Choose(possible)), None))
  }

  /** One iteration of the record loop, after the folder has been
      enumerated. */
  method ResolveRecord(d: CsvData, allFilePaths: seq<string>, performer: string)
    returns (r: Result<DocumentInformation, Error>)
    ensures r == Resolve(d, allFilePaths, performer)
  {
    if IsRest(d.performerFileNames) {
      if |allFilePaths| == 0 {
        return Err(NoPdfsForSong(d.category, d.folderName));
      }
      var chosenPdf := Shortest(allFilePaths);
      return Ok(Placement(d, None, Some(chosenPdf)));
    }
    if |allFilePaths| == 0 {
      return Err(NoPdfsForSong(d.category, d.folderName));
    }
    var possiblePdfPaths := PossiblePdfPaths(allFilePaths, d.performerFileNames);
    if |possiblePdfPaths| == 0 {
      var baseNames := BaseNames(allFilePaths);
      return Err(NoPdfsForPerformer(performer, d.category, d.folderName, d.performerFileNames, baseNames));
    }
    var chosenPdf;
    if |possiblePdfPaths| > 1 {
      chosenPdf := Longest(possiblePdfPaths);
    } else {
      chosenPdf := possiblePdfPaths[0];
    }
    r := Ok(Placement(d, Some(chosenPdf), None));
  }

  /** The rest case: an empty folder fails the song; otherwise the placement
      uses the first page of a path of minimal length, the earliest such. */
  lemma RestCaseChoice(d: CsvData, files: seq<string>, performer: string)
    requires IsRest(d.performerFileNames)
    ensures files == [] ==> Resolve(d, files, performer) == Err(NoPdfsForSong(d.category, d.folderName))
    ensures files != [] ==>
      Resolve(d, files, performer).Ok? &&
      Resolve(d, files, performer).value.pdfPath.None? &&
      Resolve(d, files, performer).value.donorPdf.Some? &&
      exists k :: 0 <= k < |files| && files[k] == Resolve(d, files, performer).value.donorPdf.value &&
        (forall j :: 0 <= j < |files| ==> JsLength(files[k]) <= JsLength(files[j])) &&
        (forall j :: 0 <= j < k ==> JsLength(files[k]) < JsLength(files[j]))
  {
    if files != [] {
      ShortestIsFirstMinimal(files);
    }
  }

  /** The playing case: it succeeds exactly when some file qualifies, and
      then uses all pages of the qualifying file of maximal path length, the
      last such; an empty folder fails the song, and a folder with no
      qualifying file fails with every lower-cased base name listed. */
  lemma PlayingCaseChoice(d: CsvData, files: seq<string>, performer: string)
    requires !IsRest(d.performerFileNames)
    ensures Resolve(d, files, performer).Ok? <==>
      exists j :: 0 <= j < |files| && Qualifies(files[j], d.performerFileNames)
    ensures files == [] ==> Resolve(d, files, performer) == Err(NoPdfsForSong(d.category, d.folderName))
    ensures files != [] && Resolve(d, files, performer).Err? ==>
      Resolve(d, files, performer).error ==
        NoPdfsForPerformer(performer, d.category, d.folderName, d.performerFileNames, BaseNames(files)) &&
      |BaseNames(files)| == |files| &&
      forall j :: 0 <= j < |files| ==> BaseNames(files)[j] == Lower(Basename(files[j]))
    ensures Resolve(d, files, performer).Ok? ==>
      Resolve(d, files, performer).value.donorPdf.None? &&
      Resolve(d, files, performer).value.pdfPath.Some? &&
      exists k :: IsLastLongestKept(files, QualifiesFor(d.performerFileNames), k) &&
                  files[k] == Resolve(d, files, performer).value.pdfPath.value
  {
    var tokens := d.performerFileNames;
    var possible := Candidates(files, tokens);
    FilterSpec(files, QualifiesFor(tokens));
    forall j | 0 <= j < |files| && Qualifies(files[j], tokens)
      ensures possible != []
    {
      assert files[j] in files;
      assert files[j] in possible;
    }
    if possible != [] {
      assert possible[0] in possible;
      ChosenIsLastLongestKept(files, QualifiesFor(tokens));
    }
  }

  /** The annotation texts of a placement: the cue is never empty and ends
      with the quoted cue, tempo and patch are copied, and the end note is the
      performer's own unless that is empty, then the song's. */
  lemma PlacementAnnotations(d: CsvData, files: seq<string>, performer: string)
    requires Resolve(d, files, performer).Ok?
    ensures var info := Resolve(d, files, performer).value;
      info.tempo == d.tempo && info.patch == d.performerPatch &&
      |info.cue| >= |Quoted(d.cue)| && info.cue[|info.cue| - |Quoted(d.cue)|..] == Quoted(d.cue) &&
      (d.performerEndNote != "" ==> info.endNote == d.performerEndNote) &&
      (d.performerEndNote == "" ==> info.endNote == d.globalEndNote)
  {
    var info := Resolve(d, files, performer).value;
    assert info == Placement(d, info.pdfPath, info.donorPdf);
    CueTextEndsQuoted(d);
  }

  /** The cue line ends with the quoted cue, so it is never empty. */
  lemma CueTextEndsQuoted(d: CsvData)
    ensures |CueText(d)| >= |Quoted(d.cue)| && CueText(d)[|CueText(d)| - |Quoted(d.cue)|..] == Quoted(d.cue)
  {
    TrimQuotedKeepsBody(d.startingPerformer, d.cue);
  }

  /** The cue line is the starting performer, a space and the quoted cue
      unchanged when the performer's name starts with a non-space
      character, and only the quoted cue when the name is blank. */
  lemma CueTextForms(d: CsvData)
    ensures d.startingPerformer != "" && !IsSpace(d.startingPerformer[0]) ==>
      CueText(d) == CueLine(d.startingPerformer, d.cue)
    ensures (forall i :: 0 <= i < |d.startingPerformer| ==> IsSpace(d.startingPerformer[i])) ==>
      CueText(d) == Quoted(d.cue)
  {
    var performer, cue := d.startingPerformer, d.cue;
    if performer != "" && !IsSpace(performer[0]) {
      TrimQuotedPlain(performer, cue);
    }
    if forall i :: 0 <= i < |performer| ==> IsSpace(performer[i]) {
      TrimQuotedBlank(performer, cue);
    }
  }

  // ------------------------------------------------------------ all records

  /** The pattern handed to the file enumerator for a record. */
  function GlobPattern(folderPath: string, d: CsvData): string
  {
    folderPath + "/" + d.category + "/" + d.folderName + "/**/*.pdf"
  }

  function ResolveStep(performer: string, folderPath: string, glob: string -> seq<string>)
    : CsvData -> Result<DocumentInformation, Error>
  {
    d => Resolve(d, glob(GlobPattern(folderPath, d)), performer)
  }

  /** The placements for all records, failing at the first record that
      cannot be resolved; `glob` stands for the recursive enumeration of
      the PDF files that match a pattern. */
  function ResolveAll(performer: string, folderPath: string, csvDatas: seq<CsvData>,
                      glob: string -> seq<string>): Result<seq<DocumentInformation>, Error>
  {
    MapAll(csvDatas, ResolveStep(performer, folderPath, glob))
  }

  /** The record loop: enumerates each song's folder, resolves the record
      and collects the placements in record order. */
  method ExtractDocumentInformations(performer: string, folderPath: string, csvDatas: seq<CsvData>,
                                     glob: string -> seq<string>)
    returns (r: Result<seq<DocumentInformation>, Error>)
    ensures r == ResolveAll(performer, folderPath, csvDatas, glob)
  {
    var step := ResolveStep(performer, folderPath, glob);
    var documentInformations: seq<DocumentInformation> := [];
    var n := 0;
    while n < |csvDatas|
      invariant 0 <= n <= |csvDatas|
      invariant MapAll(csvDatas[..n], step) == Ok(documentInformations)
    {
      var csvData := csvDatas[n];
      var allFilePaths := glob(GlobPattern(folderPath, csvData));
      var info := ResolveRecord(csvData, allFilePaths, performer);
      assert csvDatas[..n + 1] == csvDatas[..n] + [csvData];
      MapAllSnoc(csvDatas[..n], csvData, step);
      if info.Err? {
        MapAllFailedPrefix(csvDatas, n + 1, step);
        return Err(info.error);
      }
      documentInformations := documentInformations + [info.value];
      n := n + 1;
    }
    assert csvDatas[..n] == csvDatas;
    r := Ok(documentInformations);
  }

  /** One placement per record, in record order: placement `k` resolves
      record `k` against its own folder, uses that folder's files, and is a
      first-page placement exactly when record `k` is a rest. */
  lemma ResolveAllOnePerRecord(performer: string, folderPath: string, csvDatas: seq<CsvData>,
                               glob: string -> seq<string>)
    ensures ResolveAll(performer, folderPath, csvDatas, glob).Ok? <==>
      forall k :: 0 <= k < |csvDatas| ==>
        Resolve(csvDatas[k], glob(GlobPattern(folderPath, csvDatas[k])), performer).Ok?
    ensures ResolveAll(performer, folderPath, csvDatas, glob).Ok? ==>
      var infos := ResolveAll(performer, folderPath, csvDatas, glob).value;
      |infos| == |csvDatas| &&
      forall k :: 0 <= k < |csvDatas| ==>
        Resolve(csvDatas[k], glob(GlobPattern(folderPath, csvDatas[k])), performer) == Ok(infos[k]) &&
        (infos[k].donorPdf.Some? <==> IsRest(csvDatas[k].performerFileNames)) &&
        (infos[k].pdfPath.Some? <==> !IsRest(csvDatas[k].performerFileNames)) &&
        (infos[k].donorPdf.Some? ==> infos[k].donorPdf.value in glob(GlobPattern(folderPath, csvDatas[k]))) &&
        (infos[k].pdfPath.Some? ==> infos[k].pdfPath.value in glob(GlobPattern(folderPath, csvDatas[k])))
  {
    var step := ResolveStep(performer, folderPath, glob);
    MapAllOk(csvDatas, step);
    if ResolveAll(performer, folderPath, csvDatas, glob).Ok? {
      var infos := ResolveAll(performer, folderPath, csvDatas, glob).value;
      forall k | 0 <= k < |csvDatas|
        ensures (infos[k].donorPdf.Some? ==> infos[k].donorPdf.value in glob(GlobPattern(folderPath, csvDatas[k]))) &&
                (infos[k].pdfPath.Some? ==> infos[k].pdfPath.value in glob(GlobPattern(folderPath, csvDatas[k])))
      {
        var d := csvDatas[k];
        var files := glob(GlobPattern(folderPath, d));
        if IsRest(d.performerFileNames) {
          RestCaseChoice(d, files, performer);
        } else {
          PlayingCaseChoice(d, files, performer);
        }
      }
    }
  }
}
