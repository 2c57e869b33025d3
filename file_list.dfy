/**
 * The client's get_file_list: fetch /list and turn each non-blank line of
 * the body into a (name, size) pair.
 */
module FileList {
  import opened PyStr
  import Http

  /** The text of a line that has no " - ". */
  const UNKNOWN_SIZE: string := "Unknown size"

  /**
   * One line: `parts = line.split(' - ')`, the name `parts[0].strip()`, the
   * size `parts[1].strip()`, or "Unknown size" when there is no second part.
   */
  function ParseEntry(line: string): (entry: (string, string))
    ensures Stripped(entry.0) && !Contains(entry.0, DASH)
    ensures !Contains(line, DASH) ==> entry == (Strip(line), UNKNOWN_SIZE)
  {
    var parts := Split(line, DASH);
    SplitPartsClean(line, DASH);
    StripShape(parts[0]);
    StripInfixClean(parts[0], DASH);
    (Strip(parts[0]), if |parts| > 1 then Strip(parts[1]) else UNKNOWN_SIZE)
  }

  /** The body of get_file_list's loop for a non-blank line. */
  method SplitLine(fileInfo: string) returns (fileName: string, fileSize: string)
    ensures (fileName, fileSize) == ParseEntry(fileInfo)
  {
    var parts := Split(fileInfo, DASH);
    fileName := Strip(parts[0]);
    fileSize := if |parts| > 1 then Strip(parts[1]) else UNKNOWN_SIZE;
  }

  /** `if file_info.strip():` */
  predicate Blank(line: string) {
    Strip(line) == []
  }

  /** The pairs of the non-blank lines, in order. */
  function ParseLines(lines: seq<string>): (entries: seq<(string, string)>)
    ensures |entries| <= |lines|
  {
    if |lines| == 0 then []
    else if Blank(lines[0]) then ParseLines(lines[1..])
    else [ParseEntry(lines[0])] + ParseLines(lines[1..])
  }

  /** A name as ParseEntry produces it: stripped, with no " - ". */
  predicate NameShape(name: string) {
    Stripped(name) && !Contains(name, DASH)
  }

  /** The list a 200 response's body yields: at most one pair per line (see ParseFileListNames for the names). */
  function ParseFileList(text: string): (pairs: seq<(string, string)>)
    ensures |pairs| <= |Split(text, "\n")|
  {
    ParseLines(Split(text, "\n"))
  }

  /** Every name ParseLines produces is a name ParseEntry produced. */
  lemma {:induction false} ParseLinesNames(lines: seq<string>)
    ensures forall k :: 0 <= k < |ParseLines(lines)| ==> NameShape(ParseLines(lines)[k].0)
  {
    if |lines| > 0 {
      ParseLinesNames(lines[1..]);
      ParseLinesStep(lines, 0);
      assert lines[0..] == lines;
      if !Blank(lines[0]) {
        NamesCons(ParseEntry(lines[0]), ParseLines(lines[1..]));
      }
    }
  }

  /** Every name the parsed list of a response body holds has ParseEntry's shape. */
  lemma ParseFileListNames(text: string)
    ensures forall k :: 0 <= k < |ParseFileList(text)| ==> NameShape(ParseFileList(text)[k].0)
  {
    ParseLinesNames(Split(text, "\n"));
  }

  /** Putting a pair with a well-shaped name in front keeps every name well-shaped. */
  lemma NamesCons(e: (string, string), tail: seq<(string, string)>)
    requires NameShape(e.0)
    requires forall k :: 0 <= k < |tail| ==> NameShape(tail[k].0)
    ensures forall k :: 0 <= k < |[e] + tail| ==> NameShape(([e] + tail)[k].0)
  {
    var pairs := [e] + tail;
    forall k | 0 <= k < |pairs|
      ensures NameShape(pairs[k].0)
    {
      if k > 0 {
        assert pairs[k] == tail[k - 1];
      }
    }
  }

  /** A line with one " - ": the stripped text before it is the name, the stripped text after it the size. */
  lemma ParseEntryOneDash(a: string, b: string)
    requires DashFree(a) && !Contains(b, DASH)
    ensures ParseEntry(a + DASH + b) == (Strip(a), Strip(b))
  {
    FindDash(a, b);
    SplitAt(a, DASH, b);
    SplitNone(b, DASH);
  }

  /** With a second " - ", the size is the stripped text between the two and the rest of the line is dropped. */
  lemma ParseEntryTwoDashes(a: string, b: string, c: string)
    requires DashFree(a) && DashFree(b)
    ensures ParseEntry(a + DASH + b + DASH + c) == (Strip(a), Strip(b))
  {
    var rest := b + DASH + c;
    assert a + DASH + b + DASH + c == a + DASH + rest;
    FindDash(a, rest);
    SplitAt(a, DASH, rest);
    FindDash(b, c);
    SplitAt(b, DASH, c);
  }

  /**
   * get_file_list: sends GET /list; on 200 parses the body line by line,
   * otherwise (another status, or a RequestException) shows an error and
   * returns the empty list.
   */
  method GetFileList(ip: string, outcome: Http.Outcome)
    returns (fileDetails: seq<(string, string)>, sent: seq<Http.Request>, notices: seq<Http.Notice>)
    ensures sent == [Http.ListRequest(ip)]
    ensures Http.Ok(outcome) ==> fileDetails == ParseFileList(outcome.text) && notices == []
    ensures !Http.Ok(outcome) ==> fileDetails == [] && notices == [Http.Error]
  {
    sent := [Http.ListRequest(ip)];
    if !Http.Ok(outcome) {
      return [], sent, [Http.Error];
    }
    var fileList := Split(outcome.text, "\n");
    fileDetails := CollectEntries(fileList);
    notices := [];
  }

  /** get_file_list's loop over the lines of the body. */
  method CollectEntries(fileList: seq<string>) returns (fileDetails: seq<(string, string)>)
    ensures fileDetails == ParseLines(fileList)
  {
    fileDetails := [];
    var i := 0;
    assert fileList[0..] == fileList;
    while i < |fileList|
      invariant 0 <= i <= |fileList|
      invariant fileDetails + ParseLines(fileList[i..]) == ParseLines(fileList)
    {
      var fileInfo := fileList[i];
      ParseLinesStep(fileList, i);
      if Strip(fileInfo) != [] {
        var fileName, fileSize := SplitLine(fileInfo);
        fileDetails := fileDetails + [(fileName, fileSize)];
      }
      i := i + 1;
    }
    assert fileList[i..] == [];
  }

  /** Parsing distributes over concatenation of the lines. */
  lemma {:induction false} ParseLinesAppend(a: seq<string>, b: seq<string>)
    ensures ParseLines(a + b) == ParseLines(a) + ParseLines(b)
  {
    if |a| > 0 {
      assert (a + b)[1..] == a[1..] + b;
      ParseLinesAppend(a[1..], b);
    } else {
      assert a + b == b;
    }
  }

  /** One step of the walk over the lines. */
  lemma ParseLinesStep(lines: seq<string>, i: nat)
    requires i < |lines|
    ensures ParseLines(lines[i..]) ==
      (if Blank(lines[i]) then [] else [ParseEntry(lines[i])]) + ParseLines(lines[i + 1..])
  {
    assert lines[i..][1..] == lines[i + 1..];
  }
}
