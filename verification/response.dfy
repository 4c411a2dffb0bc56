/**
 * Reading the service's answer in the QA experiment: the retrieved file
 * list sits between `<FileNameList>[` and `]</FileNameList>`, the answer
 * is everything else; and storing the list as one comma-separated string.
 */
module Response {
  import opened Wrappers
  import opened Text
  import opened TagMatch
  import Prf

  const OPEN := "<FileNameList>["
  const CLOSE := "]</FileNameList>"

  /** `<FileNameList>\[(.*?)\]</FileNameList>` */
  const FILE_LIST := Tags(OPEN, CLOSE)

  /** The list and the answer read from one response. */
  datatype Extracted = Extracted(files: seq<string>, answer: string)

  /** No name holds a quote, a space or a comma. */
  predicate CleanNames(xs: seq<string>) {
    forall i :: 0 <= i < |xs| ==> '\'' !in xs[i] && ' ' !in xs[i] && ',' !in xs[i]
  }

  /** `file_list_str.replace("'", "").replace(" ", "").split(',')`. */
  function FileList(captured: string): (xs: seq<string>)
    ensures |xs| >= 1
    ensures CleanNames(xs)
  {
    var cleaned := RemoveChar(RemoveChar(captured, '\''), ' ');
    assert '\'' !in cleaned by {
      CountZero(RemoveChar(captured, '\''), '\'');
      CountZero(cleaned, '\'');
    }
    Split(cleaned, ',')
  }

  /** The response text: `response_data.get('data', '')`. */
  function Data(response: map<string, string>): (data: string)
    ensures "data" !in response ==> data == ""
    ensures "data" in response ==> data == response["data"]
  {
    if "data" in response then response["data"] else ""
  }

  /**
   * `extract_file_list_and_answer`: the capture of the leftmost match
   * cleaned and split on commas (an empty capture without a match), and
   * the stripped text left after removing every match.
   */
  function Extract(response: map<string, string>): (e: Extracted)
    ensures |e.files| >= 1
    ensures CleanNames(e.files)
    ensures Stripped(e.answer)
  {
    ExtractWith(FILE_LIST, Data(response))
  }

  /** The extraction for any pair of tags. */
  function ExtractWith(p: Tags, data: string): (e: Extracted)
    requires p.open != []
    ensures |e.files| >= 1
    ensures CleanNames(e.files)
    ensures Stripped(e.answer)
  {
    Extracted(FileList(Captured(p, data)), Strip(Sub(p, data, 0)))
  }

  /** `match.group(1)` of the leftmost match, or the empty string without one. */
  function Captured(p: Tags, data: string): string {
    match Search(p, data, 0)
    case Some((k, j)) => data[k + |p.open|..j]
    case None => ""
  }

  /** A response without a well-formed tag yields one empty file name and the whole stripped text. */
  lemma ExtractWithoutTag(response: map<string, string>)
    requires Search(FILE_LIST, Data(response), 0).None?
    ensures Extract(response) == Extracted([""], Strip(Data(response)))
  {
    SubNoMatch(FILE_LIST, Data(response), 0);
    assert Data(response)[0..] == Data(response);
  }

  /** A response without a `data` field yields one empty file name and an empty answer. */
  lemma ExtractWithoutData(response: map<string, string>)
    requires "data" !in response
    ensures Extract(response) == Extracted([""], "")
  {
    ExtractWithoutTag(response);
  }

  /**
   * With a tag present (see `TagMatch.SearchFound` for where it lies), the
   * file list re-joined with commas is the capture without quotes and
   * spaces, and the answer is the text before the tag followed by what is
   * left after it, stripped.
   */
  lemma ExtractWithTag(response: map<string, string>, k: nat, j: nat)
    requires Search(FILE_LIST, Data(response), 0) == Some((k, j))
    ensures var data := Data(response);
      && k + |OPEN| <= j <= |data|
      && Join(Extract(response).files, ",") == RemoveChar(RemoveChar(data[k + |OPEN|..j], '\''), ' ')
      && Extract(response).answer == Strip(data[..k] + Sub(FILE_LIST, data, j + |CLOSE|))
  {
    ExtractFound(FILE_LIST, Data(response), k, j);
  }

  lemma ExtractFound(p: Tags, data: string, k: nat, j: nat)
    requires p.open != [] && Search(p, data, 0) == Some((k, j))
    ensures k + |p.open| <= j <= |data|
    ensures Join(ExtractWith(p, data).files, ",") == RemoveChar(RemoveChar(data[k + |p.open|..j], '\''), ' ')
    ensures ExtractWith(p, data).answer == Strip(data[..k] + Sub(p, data, j + |p.close|))
  {
    CapturedFound(p, data, k, j);
    SubAfterSearch(p, data, k, j);
    FileListJoin(data[k + |p.open|..j]);
  }

  lemma CapturedFound(p: Tags, data: string, k: nat, j: nat)
    requires Search(p, data, 0) == Some((k, j))
    ensures k + |p.open| <= j <= |data|
    ensures Captured(p, data) == data[k + |p.open|..j]
  {
  }

  /** Re-joining the file list with commas gives the capture without quotes and spaces. */
  lemma FileListJoin(captured: string)
    ensures Join(FileList(captured), ",") == RemoveChar(RemoveChar(captured, '\''), ' ')
  {
    JoinSplit(RemoveChar(RemoveChar(captured, '\''), ' '), ',');
  }

  // ---------------------------------------------------------------------
  // Storing the list

  /** `', '.join(actual_filelist)`, the form in which the list is stored. */
  function Serialise(xs: seq<string>): string {
    Join(xs, ", ")
  }

  /**
   * Re-reading a stored list of comma-free names gives back the names
   * stripped, with the empty ones dropped.
   */
  lemma StoredListRoundTrip(xs: seq<string>)
    requires Prf.CommaFree(xs)
    ensures Prf.NormaliseList(Some(Serialise(xs))) == Prf.StripNonEmpty(xs)
  {
    PiecesRoundTrip(xs);
  }

  lemma {:induction false} PiecesRoundTrip(xs: seq<string>)
    requires Prf.CommaFree(xs)
    ensures Prf.StripNonEmpty(Split(Serialise(xs), ',')) == Prf.StripNonEmpty(xs)
  {
    if xs == [] {
      PiecesNone();
    } else if |xs| == 1 {
      PiecesOne(xs[0]);
    } else {
      CommaFreeTail(xs);
      PiecesRoundTrip(xs[1..]);
      PiecesHead(xs);
      StripNonEmptyHead(xs);
    }
  }

  /** One name: one piece, the name itself. */
  lemma PiecesOne(x: string)
    requires ',' !in x
    ensures Split(Serialise([x]), ',') == [x]
  {
    SplitNoSeparator(x, ',');
  }

  /** No names: one empty piece, dropped. */
  lemma PiecesNone()
    ensures Prf.StripNonEmpty(Split(Serialise([]), ',')) == []
  {
    assert Split("", ',') == [""];
  }

  lemma CommaFreeTail(xs: seq<string>)
    requires xs != [] && Prf.CommaFree(xs)
    ensures ',' !in xs[0] && Prf.CommaFree(xs[1..])
  {
    assert forall i :: 0 <= i < |xs| - 1 ==> xs[1..][i] == xs[i + 1];
  }

  /** The first name's piece, stripped if non-empty, comes before the pieces of the rest. */
  lemma PiecesHead(xs: seq<string>)
    requires |xs| > 1 && ',' !in xs[0]
    ensures Prf.StripNonEmpty(Split(Serialise(xs), ','))
      == (if Strip(xs[0]) != [] then [Strip(xs[0])] else []) + Prf.StripNonEmpty(Split(Serialise(xs[1..]), ','))
  {
    var spaced := Split([' '] + Serialise(xs[1..]), ',');
    SerialiseSplitsHead(xs);
    StripNonEmptyCons(xs[0], spaced);
    SpacedPieces(Serialise(xs[1..]));
  }

  /** The first name is the first piece; the rest follow the separator's space. */
  lemma SerialiseSplitsHead(xs: seq<string>)
    requires |xs| > 1 && ',' !in xs[0]
    ensures Split(Serialise(xs), ',') == [xs[0]] + Split([' '] + Serialise(xs[1..]), ',')
  {
    assert Serialise(xs) == xs[0] + [','] + ([' '] + Serialise(xs[1..]));
    SplitPrefix(xs[0], [' '] + Serialise(xs[1..]), ',');
  }

  /** A leading space changes no stripped piece. */
  lemma SpacedPieces(tail: string)
    ensures Prf.StripNonEmpty(Split([' '] + tail, ',')) == Prf.StripNonEmpty(Split(tail, ','))
  {
    assert ([' '] + tail)[1..] == tail;
    var rest := Split(tail, ',');
    var spaced := Split([' '] + tail, ',');
    assert spaced == [[' '] + rest[0]] + rest[1..];
    StripSpacePrefix(' ', rest[0]);
    assert spaced[1..] == rest[1..];
  }

  lemma StripNonEmptyHead(xs: seq<string>)
    requires xs != []
    ensures Prf.StripNonEmpty(xs)
      == (if Strip(xs[0]) != [] then [Strip(xs[0])] else []) + Prf.StripNonEmpty(xs[1..])
  {
    StripNonEmptyCons(xs[0], xs[1..]);
    assert [xs[0]] + xs[1..] == xs;
  }

  lemma StripNonEmptyCons(x: string, rest: seq<string>)
    ensures Prf.StripNonEmpty([x] + rest)
      == (if Strip(x) != [] then [Strip(x)] else []) + Prf.StripNonEmpty(rest)
  {
    assert ([x] + rest)[1..] == rest;
  }

  /** Names that are non-empty, stripped and comma-free survive storage unchanged. */
  lemma SerialiseRoundTrip(xs: seq<string>)
    requires forall i :: 0 <= i < |xs| ==> xs[i] != [] && Stripped(xs[i]) && ',' !in xs[i]
    ensures Prf.NormaliseList(Some(Serialise(xs))) == xs
  {
    StoredListRoundTrip(xs);
    Prf.StripNonEmptyKeeps(xs);
  }

  /**
   * The list an experiment stores for a response is read back by the
   * evaluation as the extracted names, stripped, without the empty ones.
   */
  lemma ExtractedListStored(response: map<string, string>)
    ensures var files := Extract(response).files;
      Prf.NormaliseList(Some(Serialise(files))) == Prf.StripNonEmpty(files)
  {
    StoredListRoundTrip(Extract(response).files);
  }
}
