/**
 * The firmware's listFiles: one line per entry of the SD card's root
 * directory, in the order openNextFile returns them.
 */
module Listing {
  /**
   * A directory entry as listFiles sees it: file.name() and the text of
   * String(fileSizeMB, 2), the size in MiB with two decimals.
   */
  datatype DirEntry = DirEntry(name: string, sizeMB: string)

  /** `name + " - " + size + " MB\n"`. */
  function Line(e: DirEntry): (line: string)
    ensures |line| == |e.name| + |e.sizeMB| + 7 && line[|line| - 1] == '\n'
  {
    e.name + " - " + e.sizeMB + " MB\n"
  }

  /** The text listFiles returns for the directory's entries. */
  function Body(entries: seq<DirEntry>): (body: string)
    ensures |entries| == 0 <==> body == ""
  {
    if |entries| == 0 then "" else Body(entries[..|entries| - 1]) + Line(entries[|entries| - 1])
  }

  /** listFiles: walks the directory with openNextFile, appending one line per entry. */
  method ListFiles(directory: seq<DirEntry>) returns (fileList: string)
    ensures fileList == Body(directory)
  {
    fileList := "";
    var i := 0;
    while i < |directory|
      invariant 0 <= i <= |directory|
      invariant fileList == Body(directory[..i])
    {
      assert directory[..i + 1][..i] == directory[..i];
      fileList := fileList + Line(directory[i]);
      i := i + 1;
    }
    assert directory[..i] == directory;
  }

  /** The body is the lines of the entries, front to back. */
  lemma {:induction false} BodyCons(e: DirEntry, rest: seq<DirEntry>)
    ensures Body([e] + rest) == Line(e) + Body(rest)
    decreases |rest|
  {
    if |rest| == 0 {
      assert [e] + rest == [e];
      assert [e][..0] == [];
    } else {
      var all := [e] + rest;
      var init := rest[..|rest| - 1];
      var last := Line(rest[|rest| - 1]);
      assert all[..|all| - 1] == [e] + init;
      assert all[|all| - 1] == rest[|rest| - 1];
      assert Body(all) == Body([e] + init) + last;
      BodyCons(e, init);
      assert Body(rest) == Body(init) + last;
    }
  }
}
