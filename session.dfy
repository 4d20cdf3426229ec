/** One search run: each regular file is read, scanned for the query, and
    every match is reported as (path, line, column), file by file and within
    a file in offset order. */
module Session {
  import opened Wrappers
  import opened Utf16
  import opened Matcher
  import opened LineIndex
  import opened Validation

  /** A regular file met by the directory walk, with its decoded text, or
      `None` when reading it as text failed. */
  datatype SourceFile = SourceFile(path: string, content: Option<Text>)

  /** One reported match. */
  datatype MatchLocation = MatchLocation(path: string, line: int, column: int)

  /** The path a result shows: `file` relative to the project base path, or
      `file` itself when there is no base path or relativizing fails.
      `relativize(base, file)` stands for
      `basePath.relativize(file).toString()`, and `None` for an exception
      thrown there, inside the `try`. `Paths.get(base)` itself runs outside
      that `try`; its failure is not modelled. */
  function DisplayPath(file: string, base: Option<string>, relativize: (string, string) -> Option<string>): (r: string)
    ensures r != file ==> base.Some? && relativize(base.value, file) == Some(r)
    ensures base.Some? && relativize(base.value, file).Some? ==> r == relativize(base.value, file).value
  {
    match base
    case None => file
    case Some(b) =>
      match relativize(b, file)
      case Some(rel) => rel
      case None => file
  }

  /** The result for a match at `offset`: the position a scan of the text up to
      it reaches. */
  ghost function At(path: string, content: Text, offset: nat): MatchLocation
    requires offset <= |content|
  {
    var p := Scan(content, offset);
    MatchLocation(path, p.line, p.column)
  }

  /** The results for a list of match offsets, one per offset, in order. */
  ghost function Locations(path: string, content: Text, offsets: seq<nat>): (r: seq<MatchLocation>)
    requires forall k :: 0 <= k < |offsets| ==> offsets[k] <= |content|
    ensures |r| == |offsets|
    ensures forall k :: 0 <= k < |r| ==> r[k] == At(path, content, offsets[k])
  {
    if offsets == [] then []
    else Locations(path, content, offsets[..|offsets| - 1]) + [At(path, content, offsets[|offsets| - 1])]
  }

  /** Reporting one more offset appends its result. */
  lemma LocationsSnoc(path: string, content: Text, offsets: seq<nat>, x: nat)
    requires forall k :: 0 <= k < |offsets| ==> offsets[k] <= |content|
    requires x <= |content|
    ensures Locations(path, content, offsets + [x]) == Locations(path, content, offsets) + [At(path, content, x)]
  {
    assert (offsets + [x])[..|offsets|] == offsets;
  }

  /** Everything `processFile` reports for one file. */
  ghost function FileResults(file: SourceFile, query: Text, base: Option<string>,
                             relativize: (string, string) -> Option<string>): seq<MatchLocation>
  {
    match file.content
    case None => []
    case Some(text) => Locations(DisplayPath(file.path, base, relativize), text, Occurrences(text, query, 0))
  }

  /** `f` applied to each element, the results one after the other. */
  ghost function ConcatMap<A, B>(f: A -> seq<B>, xs: seq<A>): seq<B>
  {
    if xs == [] then [] else ConcatMap(f, xs[..|xs| - 1]) + f(xs[|xs| - 1])
  }

  /** The concatenation splits at any boundary between elements. */
  lemma {:induction false} ConcatMapAppend<A, B>(f: A -> seq<B>, front: seq<A>, back: seq<A>)
    ensures ConcatMap(f, front + back) == ConcatMap(f, front) + ConcatMap(f, back)
    decreases |back|
  {
    if back == [] {
      assert front + back == front;
    } else {
      var init := back[..|back| - 1];
      assert (front + back)[..|front + back| - 1] == front + init;
      ConcatMapAppend(f, front, init);
    }
  }

  /** What `processFile` reports, as a function of the file alone. */
  ghost function Reporter(query: Text, base: Option<string>,
                          relativize: (string, string) -> Option<string>): SourceFile -> seq<MatchLocation>
  {
    file => FileResults(file, query, base, relativize)
  }

  /** Everything a run over `files` reports: the files' results one after the
      other, in the order of the walk. */
  ghost function SearchResults(files: seq<SourceFile>, query: Text, base: Option<string>,
                               relativize: (string, string) -> Option<string>): seq<MatchLocation>
  {
    ConcatMap(Reporter(query, base, relativize), files)
  }

  /** `processFile`: an unreadable file reports nothing; otherwise the first
      `indexOf` decides whether the line index is built at all, and the loop
      reports each match and looks for the next one from one past it. */
  method ProcessFile(file: SourceFile, query: Text, base: Option<string>,
                     relativize: (string, string) -> Option<string>) returns (out: seq<MatchLocation>)
    requires query != []
    ensures out == FileResults(file, query, base, relativize)
  {
    if file.content.None? {
      return [];
    }
    var content := file.content.value;
    var index := IndexOf(content, query, 0);
    if index < 0 {
      IndexOfFirstOccurrence(content, query, 0);
      return [];
    }
    ReportedStart(content, query, DisplayPath(file.path, base, relativize));
    var lineBreaks, count := BuildLineBreaks(content);
    out := [];
    ghost var done: seq<nat> := [];
    ghost var path := DisplayPath(file.path, base, relativize);
    while index >= 0
      invariant lineBreaks[..count] == Breaks(content, |content|)
      invariant Reported(content, query, path, done, out, index)
      decreases if index < 0 then 0 else |content| + 1 - index
    {
      var line, column := Locate(lineBreaks, count, index, content);
      var relative := DisplayPath(file.path, base, relativize);
      ReportedStep(content, query, path, done, out, index, MatchLocation(relative, line, column));
      out := out + [MatchLocation(relative, line, column)];
      done := done + [index];
      index := IndexOf(content, query, index + 1);
    }
    ReportedAll(content, query, path, done, out);
  }

  /** The state of the match loop of `processFile` at offset `index`: `out`
      holds the results for the occurrences `done` already reported, and
      `index` is the next occurrence, or -1 when `done` holds them all. */
  ghost predicate Reported(content: Text, query: Text, path: string,
                           done: seq<nat>, out: seq<MatchLocation>, index: int)
  {
    && (forall k :: 0 <= k < |done| ==> done[k] <= |content|)
    && out == Locations(path, content, done)
    && (index >= 0 ==>
         index + |query| <= |content| &&
         Occurrences(content, query, 0) == done + [index] + Occurrences(content, query, index + 1))
    && (index < 0 ==> index == -1 && Occurrences(content, query, 0) == done)
  }

  /** Before the loop, the first `indexOf` result is the first occurrence and
      nothing is reported yet. */
  lemma ReportedStart(content: Text, query: Text, path: string)
    requires query != [] && IndexOf(content, query, 0) >= 0
    ensures Reported(content, query, path, [], [], IndexOf(content, query, 0))
  {
    var first := IndexOf(content, query, 0);
    IndexOfFirstOccurrence(content, query, 0);
    NothingReportedYet(content, query, path, first);
  }

  /** With every occurrence still pending, the first of them next. */
  lemma NothingReportedYet(content: Text, query: Text, path: string, first: nat)
    requires first + |query| <= |content|
    requires Occurrences(content, query, 0) == [first] + Occurrences(content, query, first + 1)
    ensures Reported(content, query, path, [], [], first)
  {
    var done: seq<nat> := [];
    assert Locations(path, content, done) == [];
    assert done + [first] == [first];
  }

  /** One trip round the loop: reporting the match at `index`, at the position
      a scan reaches, and searching again from `index + 1`. */
  lemma ReportedStep(content: Text, query: Text, path: string,
                     done: seq<nat>, out: seq<MatchLocation>, index: int, found: MatchLocation)
    requires query != [] && index >= 0
    requires Reported(content, query, path, done, out, index)
    requires found.path == path && Position(found.line, found.column) == Scan(content, index)
    ensures Reported(content, query, path, done + [index], out + [found], IndexOf(content, query, index + 1))
  {
    var done' := done + [index];
    assert found == At(path, content, index);
    LocationsSnoc(path, content, done, index);
    assert forall k :: 0 <= k < |done'| ==> done'[k] <= |content|;
    LoopStep(content, query, Occurrences(content, query, 0), done', index);
  }

  /** Searching again from one past `index` finds the next occurrence, or -1
      exactly when `index` was the last. */
  lemma LoopStep(content: Text, query: Text, all: seq<nat>, done: seq<nat>, index: nat)
    requires query != []
    requires all == done + Occurrences(content, query, index + 1)
    ensures var next := IndexOf(content, query, index + 1);
      (next >= 0 ==> all == done + [next] + Occurrences(content, query, next + 1)) &&
      (next < 0 ==> all == done)
  {
    IndexOfFirstOccurrence(content, query, index + 1);
  }

  /** When the loop ends every occurrence has been reported. */
  lemma ReportedAll(content: Text, query: Text, path: string, done: seq<nat>, out: seq<MatchLocation>)
    requires Reported(content, query, path, done, out, -1)
    ensures out == Locations(path, content, Occurrences(content, query, 0))
  {
  }

  /** The body of the coroutine in `onStart`: every regular file of the walk,
      in order, goes through `processFile`. */
  method RunSearch(files: seq<SourceFile>, query: Text, base: Option<string>,
                   relativize: (string, string) -> Option<string>) returns (out: seq<MatchLocation>)
    requires query != []
    ensures out == SearchResults(files, query, base, relativize)
  {
    out := [];
    for i := 0 to |files|
      invariant out == SearchResults(files[..i], query, base, relativize)
    {
      var found := ProcessFile(files[i], query, base, relativize);
      assert files[..i + 1][..i] == files[..i];
      out := out + found;
    }
    assert files[..|files|] == files;
  }

  /** `onStart`: a refused request reports its rejection and starts no search;
      an accepted one runs the search over the files the walk of the trimmed
      directory yields. `walk` stands for `Files.walk` filtered to regular
      files, each read with `Files.readString`, as a walk that completes. */
  method StartSearch(dirText: Text, query: Text, isDirectory: Text -> bool,
                     walk: Text -> seq<SourceFile>, base: Option<string>,
                     relativize: (string, string) -> Option<string>)
    returns (outcome: Result<seq<MatchLocation>, Rejection>)
    ensures outcome.Failure? <==> Validate(dirText, query, isDirectory).Failure?
    ensures outcome.Failure? ==> outcome.error == Validate(dirText, query, isDirectory).error
    ensures outcome.Success? ==>
      query != [] && outcome.value == SearchResults(walk(Trim(dirText)), query, base, relativize)
  {
    var request := Validate(dirText, query, isDirectory);
    if request.Failure? {
      return Failure(request.error);
    }
    var found := RunSearch(walk(request.value.directory), request.value.query, base, relativize);
    return Success(found);
  }

  /** The results of a run split at any file boundary: the files before it
      report first, then the files after it. */
  lemma SearchResultsAppend(front: seq<SourceFile>, back: seq<SourceFile>, query: Text,
                            base: Option<string>, relativize: (string, string) -> Option<string>)
    ensures SearchResults(front + back, query, base, relativize) ==
      SearchResults(front, query, base, relativize) + SearchResults(back, query, base, relativize)
  {
    ConcatMapAppend(Reporter(query, base, relativize), front, back);
  }

  /** A file that cannot be read as text reports nothing and does not stop the
      files after it from being searched. */
  lemma SearchSkipsUnreadable(files: seq<SourceFile>, k: nat, query: Text,
                              base: Option<string>, relativize: (string, string) -> Option<string>)
    requires k < |files| && files[k].content.None?
    ensures SearchResults(files, query, base, relativize) ==
      SearchResults(files[..k], query, base, relativize) + SearchResults(files[k + 1..], query, base, relativize)
  {
    assert files == files[..k] + [files[k]] + files[k + 1..];
    SearchResultsAppend(files[..k] + [files[k]], files[k + 1..], query, base, relativize);
    SearchResultsAppend(files[..k], [files[k]], query, base, relativize);
    assert SearchResults([files[k]], query, base, relativize) == [] by {
      assert [files[k]][..0] == [];
    }
  }

  /** A readable file reports nothing exactly when the query does not occur in
      it. */
  lemma NoMatchNoResults(file: SourceFile, query: Text, base: Option<string>,
                         relativize: (string, string) -> Option<string>)
    requires file.content.Some?
    ensures FileResults(file, query, base, relativize) == [] <==>
      forall i :: !MatchesAt(file.content.value, query, i)
  {
    var text := file.content.value;
    var all := Occurrences(text, query, 0);
    if all != [] {
      OccurrencesExact(text, query, 0, all[0]);
    } else {
      forall i ensures !MatchesAt(text, query, i) {
        OccurrencesExact(text, query, 0, i);
      }
    }
  }

  /** The results of one file are one per occurrence of the query, overlapping
      ones included, at the position a scan reaches, in strictly increasing
      offset order. */
  lemma FileResultsExact(file: SourceFile, query: Text, base: Option<string>,
                         relativize: (string, string) -> Option<string>, i: int)
    requires file.content.Some?
    ensures var text := file.content.value;
      var offsets := Occurrences(text, query, 0);
      (MatchesAt(text, query, i) <==> i in offsets) &&
      (forall j, k :: 0 <= j < k < |offsets| ==> offsets[j] < offsets[k]) &&
      FileResults(file, query, base, relativize) ==
        Locations(DisplayPath(file.path, base, relativize), text, offsets)
  {
    OccurrencesExact(file.content.value, query, 0, i);
    OccurrencesIncreasing(file.content.value, query, 0);
  }

  /** A worked example: "foo" in "foo\nbar foo\n" is reported at line 1,
      column 1 and at line 2, column 5. The texts are written as their UTF-16
      code units: 0x66 'f', 0x6F 'o', 0x62 'b', 0x61 'a', 0x72 'r', 0x20 ' ',
      0x0A '\n'. */
  lemma TwoLineExample(path: string, text: Text, query: Text, relativize: (string, string) -> Option<string>)
    requires text == [0x66, 0x6F, 0x6F, 0x0A, 0x62, 0x61, 0x72, 0x20, 0x66, 0x6F, 0x6F, 0x0A]
    requires query == [0x66, 0x6F, 0x6F]
    ensures FileResults(SourceFile(path, Some(text)), query, None, relativize) ==
      [MatchLocation(path, 1, 1), MatchLocation(path, 2, 5)]
  {
    ExampleOccurrences(text, query);
    ExampleLocations(path, text);
    assert DisplayPath(path, None, relativize) == path;
  }

  /** The locations reported for the offsets 0 and 8 of the example text. */
  lemma ExampleLocations(path: string, text: Text)
    requires text == [0x66, 0x6F, 0x6F, 0x0A, 0x62, 0x61, 0x72, 0x20, 0x66, 0x6F, 0x6F, 0x0A]
    ensures Locations(path, text, [0, 8]) == [MatchLocation(path, 1, 1), MatchLocation(path, 2, 5)]
  {
    ExamplePositions(text);
    var offsets: seq<nat> := [0, 8];
    assert offsets[..1] == [0];
    assert Locations(path, text, [0]) == [At(path, text, 0)];
  }

  /** The occurrences of "foo" in the example text. */
  lemma ExampleOccurrences(text: Text, query: Text)
    requires text == [0x66, 0x6F, 0x6F, 0x0A, 0x62, 0x61, 0x72, 0x20, 0x66, 0x6F, 0x6F, 0x0A]
    requires query == [0x66, 0x6F, 0x6F]
    ensures Occurrences(text, query, 0) == [0, 8]
  {
    forall i | 1 <= i < 8 || i == 9 ensures !MatchesAt(text, query, i) {
      assert text[i..i + 3][0] == text[i];
    }
    assert text[0..3] == query && text[8..11] == query;
    assert Occurrences(text, query, 10) == [];
    assert Occurrences(text, query, 9) == [];
    assert Occurrences(text, query, 8) == [8];
    assert Occurrences(text, query, 7) == [8];
    assert Occurrences(text, query, 6) == [8];
    assert Occurrences(text, query, 5) == [8];
    assert Occurrences(text, query, 4) == [8];
    assert Occurrences(text, query, 3) == [8];
    assert Occurrences(text, query, 2) == [8];
    assert Occurrences(text, query, 1) == [8];
  }

  /** The positions of the two occurrences in the example text. */
  lemma ExamplePositions(text: Text)
    requires text == [0x66, 0x6F, 0x6F, 0x0A, 0x62, 0x61, 0x72, 0x20, 0x66, 0x6F, 0x6F, 0x0A]
    ensures Scan(text, 0) == Position(1, 1) && Scan(text, 8) == Position(2, 5)
  {
    assert Scan(text, 1) == Position(1, 2);
    assert Scan(text, 2) == Position(1, 3);
    assert Scan(text, 3) == Position(1, 4);
    assert Scan(text, 4) == Position(2, 1);
    assert Scan(text, 5) == Position(2, 2);
    assert Scan(text, 6) == Position(2, 3);
    assert Scan(text, 7) == Position(2, 4);
  }

  /** Offsets and columns count UTF-16 code units: after U+1F600, which is
      the surrogate pair 0xD83D 0xDE00, "foo" is found at offset 2 and
      reported at column 3. */
  lemma SurrogatePairExample(path: string, text: Text, query: Text, relativize: (string, string) -> Option<string>)
    requires text == [0xD83D, 0xDE00, 0x66, 0x6F, 0x6F]
    requires query == [0x66, 0x6F, 0x6F]
    ensures IndexOf(text, query, 0) == 2
    ensures FileResults(SourceFile(path, Some(text)), query, None, relativize) == [MatchLocation(path, 1, 3)]
  {
    SurrogatePairOccurrences(text, query);
    SurrogatePairPosition(text);
    var offsets: seq<nat> := [2];
    assert Locations(path, text, offsets) == [At(path, text, 2)] by { assert offsets[..0] == []; }
    assert DisplayPath(path, None, relativize) == path;
  }

  /** "foo" occurs only at offset 2 of the surrogate-pair example. */
  lemma SurrogatePairOccurrences(text: Text, query: Text)
    requires text == [0xD83D, 0xDE00, 0x66, 0x6F, 0x6F]
    requires query == [0x66, 0x6F, 0x6F]
    ensures IndexOf(text, query, 0) == 2
    ensures Occurrences(text, query, 0) == [2]
  {
    assert !MatchesAt(text, query, 0) by { assert text[0..3][0] == text[0]; }
    assert !MatchesAt(text, query, 1) by { assert text[1..4][0] == text[1]; }
    assert text[2..5] == query;
    assert Occurrences(text, query, 3) == [];
    assert Occurrences(text, query, 2) == [2];
    assert Occurrences(text, query, 1) == [2];
  }

  /** Offset 2 of the surrogate-pair example is at line 1, column 3. */
  lemma SurrogatePairPosition(text: Text)
    requires text == [0xD83D, 0xDE00, 0x66, 0x6F, 0x6F]
    ensures Scan(text, 2) == Position(1, 3)
  {
    assert Scan(text, 1) == Position(1, 2);
  }
}
