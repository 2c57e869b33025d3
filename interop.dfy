/**
 * What the firmware and the client make of each other: the client's parse
 * of the firmware's /list body, and the firmware handlers' answers to the
 * requests the client builds.
 */
module Interop {
  import opened Wrappers
  import opened PyStr
  import Listing
  import FileList
  import Entries
  import Routes
  import Http
  import Discovery
  import ControlPanel
  import PyDict
  import Digits

  /** A listing line without its newline. */
  function LineText(e: Listing.DirEntry): string {
    e.name + DASH + (e.sizeMB + " MB")
  }

  /** What the client should read for an entry: its name and its size with the unit. */
  function Expected(entries: seq<Listing.DirEntry>): (pairs: seq<(string, string)>)
    ensures |pairs| == |entries|
  {
    seq(|entries|, k requires 0 <= k < |entries| => (entries[k].name, entries[k].sizeMB + " MB"))
  }

  /**
   * An entry the client reads back as listed: the name is stripped, has no
   * " - " and does not end in " -"; the size text starts with a
   * non-whitespace character and has no " - " and no " -" ending either;
   * neither has a newline.
   */
  predicate Clean(e: Listing.DirEntry) {
    && Stripped(e.name) && DashFree(e.name) && '\n' !in e.name
    && |e.sizeMB| > 0 && !IsSpace(e.sizeMB[0]) && DashFree(e.sizeMB) && '\n' !in e.sizeMB
  }

  /** Appending " MB" to a text without " - " and without a " -" ending adds no " - ". */
  lemma UnitClean(size: string)
    requires DashFree(size)
    ensures !Contains(size + " MB", DASH)
  {
    var s := size + " MB";
    forall j: nat | j <= |s|
      ensures !OccursAt(s, DASH, j)
    {
      if j + 3 <= |size| {
        SliceOfConcat(size, " MB", j, 3);
        assert !OccursAt(size, DASH, j);
      } else if j + 3 <= |s| {
        var w := s[j..j + 3];
        if j + 2 == |size| {
          assert w[0] == size[j] && w[1] == size[j + 1];
          assert size[|size| - 2..] == [size[j], size[j + 1]];
          assert size[j] != ' ' || size[j + 1] != '-';
        } else if j + 1 == |size| {
          assert w[2] == 'M';
        } else {
          assert w[1] == 'M';
        }
      }
    }
  }

  /** A clean entry's line splits at " - " into its name and its size with the unit. */
  lemma LineFields(e: Listing.DirEntry)
    requires Clean(e)
    ensures Split(LineText(e), DASH) == [e.name, e.sizeMB + " MB"]
  {
    var size := e.sizeMB + " MB";
    FindDash(e.name, size);
    SplitAt(e.name, DASH, size);
    UnitClean(e.sizeMB);
    SplitNone(size, DASH);
  }

  /** A clean entry's line is not blank: it ends in 'B'. */
  lemma LineNotBlank(e: Listing.DirEntry)
    ensures !FileList.Blank(LineText(e))
  {
    var line := LineText(e);
    StripEmpty(line);
    assert line[|line| - 1] == 'B';
  }

  /** A clean entry's line parses to its name and its size with the unit. */
  lemma LineParse(e: Listing.DirEntry)
    requires Clean(e)
    ensures !FileList.Blank(LineText(e))
    ensures FileList.ParseEntry(LineText(e)) == (e.name, e.sizeMB + " MB")
  {
    var size := e.sizeMB + " MB";
    LineFields(e);
    LineNotBlank(e);
    StripStripped(e.name);
    assert size[0] == e.sizeMB[0] && size[|size| - 1] == 'B';
    StripStripped(size);
  }

  /** The listing of `[e] + rest` splits into e's line and the lines of `rest`. */
  lemma BodyLines(e: Listing.DirEntry, rest: seq<Listing.DirEntry>)
    requires '\n' !in e.name && '\n' !in e.sizeMB
    ensures Split(Listing.Body([e] + rest), "\n") == [LineText(e)] + Split(Listing.Body(rest), "\n")
  {
    Listing.BodyCons(e, rest);
    var line := LineText(e);
    assert '\n' !in line;
    assert Listing.Line(e) == line + "\n";
    SplitChar(line, '\n', Listing.Body(rest));
  }

  /** A non-blank first line contributes its pair in front. */
  lemma ParseLinesCons(line: string, tail: seq<string>)
    requires !FileList.Blank(line)
    ensures FileList.ParseLines([line] + tail) == [FileList.ParseEntry(line)] + FileList.ParseLines(tail)
  {
    assert ([line] + tail)[1..] == tail;
  }

  /** The client reads the firmware's listing back entry by entry, in order, when every entry is clean. */
  lemma {:induction false} ListingRoundTrip(entries: seq<Listing.DirEntry>)
    requires forall k :: 0 <= k < |entries| ==> Clean(entries[k])
    ensures FileList.ParseFileList(Listing.Body(entries)) == Expected(entries)
    decreases |entries|
  {
    if |entries| == 0 {
      NoChar("", '\n');
      SplitNone("", "\n");
    } else {
      var rest := entries[1..];
      assert entries == [entries[0]] + rest;
      assert forall k :: 0 <= k < |rest| ==> Clean(rest[k]) by {
        forall k | 0 <= k < |rest| ensures Clean(rest[k]) {
          assert rest[k] == entries[k + 1];
        }
      }
      ListingRoundTrip(rest);
      ListingCons(entries[0], rest);
    }
  }

  /** A clean entry in front of a listing that reads back adds its pair in front. */
  lemma ListingCons(e: Listing.DirEntry, rest: seq<Listing.DirEntry>)
    requires Clean(e)
    requires FileList.ParseFileList(Listing.Body(rest)) == Expected(rest)
    ensures FileList.ParseFileList(Listing.Body([e] + rest)) == Expected([e] + rest)
  {
    var tail := Split(Listing.Body(rest), "\n");
    BodyLines(e, rest);
    LineParse(e);
    ParseLinesCons(LineText(e), tail);
    ExpectedCons(e, rest);
  }

  /** The expected pairs of `[e] + rest` are e's pair, then rest's. */
  lemma ExpectedCons(e: Listing.DirEntry, rest: seq<Listing.DirEntry>)
    ensures Expected([e] + rest) == [(e.name, e.sizeMB + " MB")] + Expected(rest)
  {
  }

  /** An entry whose name ends in " -" comes back with a shorter name, whatever its size text. */
  lemma NameEndingInDashIsCut(e: Listing.DirEntry)
    requires EndsWith(e.name, " -")
    ensures FileList.ParseEntry(LineText(e)).0 != e.name
  {
    var line := LineText(e);
    FindDashEarly(e.name, e.sizeMB + " MB");
    var i := Find(line, DASH).value;
    assert Split(line, DASH)[0] == line[..i];
    StripShape(line[..i]);
  }

  /**
   * The client never reaches the firmware's rename: it sends `file`/`new_name`,
   * the handler wants `old`/`new`. (A typed name holding '&' could smuggle
   * `old` and `new` into the unencoded URL; such names are outside the model.)
   */
  lemma ClientRenameRejected(ip: string, oldName: string, newName: string, renames: (string, string) -> bool)
    requires Http.UrlSafe(oldName) && Http.UrlSafe(newName)
    ensures var reply := Routes.RenameFile(Http.RenameRequest(ip, oldName, newName).query, renames);
      reply.status == 400 && reply.effect == Routes.NoEffect
  {
  }

  /** A client delete of a URL-safe name is answered 200 and removes "/" + that name, whether or not the file existed. */
  lemma ClientDeleteAccepted(ip: string, filename: string)
    requires Http.UrlSafe(filename)
    ensures var reply := Routes.Delete(Http.DeleteRequest(ip, filename).query);
      reply.status == 200 && reply.effect == Routes.Remove("/" + filename)
  {
  }

  /** A client download of a URL-safe name is never answered 400, and is answered 200 exactly for a regular file. */
  lemma ClientDownloadAnswered(ip: string, filename: string, lookup: string -> Routes.Lookup)
    requires Http.UrlSafe(filename)
    ensures var reply := Routes.Download(Http.DownloadRequest(ip, filename).query, lookup);
      && reply.status != 400
      && (reply.status == 200 <==> lookup("/" + filename) == Routes.Regular)
  {
  }

  /** A client time sync is answered 200 and hands the firmware the client's clock as a decimal text. */
  lemma ClientSyncAccepted(ip: string, now: int)
    ensures var reply := Routes.SetTime(Http.SyncRequest(ip, now).query);
      reply.status == 200 && reply.effect == Routes.SetClock(Http.IntText(now))
  {
  }

  /**
   * A clean, URL-safe listed file, shown in the files listbox and then selected for
   * deletion, makes the firmware remove "/" + its listed name.
   */
  lemma ListedFileDeleteTarget(ip: string, e: Listing.DirEntry)
    requires Clean(e) && Http.UrlSafe(e.name)
    ensures var pair := FileList.ParseEntry(LineText(e));
      var row := Entries.FileEntry(pair.0, pair.1);
      Routes.Delete(Http.DeleteRequest(ip, Entries.ParseFileEntry(row)).query).effect == Routes.Remove("/" + e.name)
  {
    LineParse(e);
    Entries.FileEntryRoundTrip(e.name, e.sizeMB + " MB");
  }

  /** No address text of a scan contains '(': "None", or inet_ntoa's digits and dots. */
  lemma ScanTextsHaveNoParen(announcements: seq<Discovery.Announcement>, name: string)
    requires name in Discovery.ScanResult(announcements).values
    ensures '(' !in Entries.IpText(Discovery.ScanResult(announcements).values[name])
  {
    Discovery.ScanLookup(announcements, name);
    FirstAddressNoParen(Discovery.LastInfo(announcements, name).value);
  }

  /** The address text of a service info has no '('. */
  lemma FirstAddressNoParen(info: Discovery.ServiceInfo)
    ensures '(' !in Entries.IpText(Discovery.FirstAddress(info))
  {
    if |info.addresses| > 0 {
      var t := Entries.InetNtoa(info.addresses[0]);
      assert Discovery.FirstAddress(info) == Some(t);
      forall i | 0 <= i < |t|
        ensures t[i] != '('
      {
        assert Digits.IsDigit(t[i]) || t[i] == '.';
      }
    }
  }

  /**
   * Selecting the k-th row of the device listbox after a scan selects the
   * k-th device's address text, when the device's name has no '('.
   */
  lemma SelectedRowAddress(announcements: seq<Discovery.Announcement>, k: nat)
    requires k < |Discovery.ScanResult(announcements).keys|
    requires '(' !in Discovery.ScanResult(announcements).keys[k]
    ensures var r := Discovery.ScanResult(announcements);
      var rows := ControlPanel.DeviceRows(PyDict.Items(r));
      k < |rows| && Entries.ParseDeviceEntry(rows[k]) == Some(Entries.IpText(r.values[r.keys[k]]))
  {
    var r := Discovery.ScanResult(announcements);
    var name := r.keys[k];
    ScanTextsHaveNoParen(announcements, name);
    Entries.DeviceEntryRoundTrip(name, r.values[name]);
  }
}
