/**
 * The text of the client's two listboxes: a device entry
 * `f"{name} ({ip})"` read back with `split('(')[1][:-1]`, and a file entry
 * `f"{name} - {size}"` read back with `split(' - ')[0].strip()`; and
 * `socket.inet_ntoa`, which spells a device's IPv4 address.
 */
module Entries {
  import opened Wrappers
  import opened PyStr
  import Digits
  import Bytes

  datatype IPv4 = IPv4(a: Bytes.byte, b: Bytes.byte, c: Bytes.byte, d: Bytes.byte)

  /** `socket.inet_ntoa`: the dotted-decimal spelling of a 4-byte address. */
  function InetNtoa(ip: IPv4): (s: string)
    ensures forall i :: 0 <= i < |s| ==> Digits.IsDigit(s[i]) || s[i] == '.'
  {
    Digits.Decimal(ip.a) + "." + (Digits.Decimal(ip.b) + "." + (Digits.Decimal(ip.c) + "." + Digits.Decimal(ip.d)))
  }

  /** Reads a dotted-decimal address: four decimal fields below 256. */
  function ParseDotted(s: string): (r: Option<IPv4>)
    ensures r.Some? ==> |Split(s, ".")| == 4
  {
    var parts := Split(s, ".");
    if |parts| == 4 && forall k :: 0 <= k < 4 ==> Digits.AllDigits(parts[k]) then
      if Digits.Value(parts[0]) < 256 && Digits.Value(parts[1]) < 256
        && Digits.Value(parts[2]) < 256 && Digits.Value(parts[3]) < 256
      then Some(IPv4(Digits.Value(parts[0]), Digits.Value(parts[1]), Digits.Value(parts[2]), Digits.Value(parts[3])))
      else None
    else None
  }

  /** A decimal numeral has no '.'. */
  lemma NoDot(n: nat)
    ensures '.' !in Digits.Decimal(n)
  {
    var f := Digits.Decimal(n);
    forall i | 0 <= i < |f|
      ensures f[i] != '.'
    {
      assert Digits.IsDigit(f[i]);
    }
  }

  /** Four dot-free fields joined with dots split back into themselves. */
  lemma FourFields(da: string, db: string, dc: string, dd: string)
    requires '.' !in da && '.' !in db && '.' !in dc && '.' !in dd
    ensures Split(da + "." + (db + "." + (dc + "." + dd)), ".") == [da, db, dc, dd]
  {
    NoChar(dd, '.');
    SplitNone(dd, ".");
    SplitChar(dc, '.', dd);
    SplitChar(db, '.', dc + "." + dd);
    SplitChar(da, '.', db + "." + (dc + "." + dd));
  }

  /** The four fields of inet_ntoa's text. */
  lemma DottedFields(ip: IPv4)
    ensures Split(InetNtoa(ip), ".") ==
      [Digits.Decimal(ip.a), Digits.Decimal(ip.b), Digits.Decimal(ip.c), Digits.Decimal(ip.d)]
  {
    NoDot(ip.a);
    NoDot(ip.b);
    NoDot(ip.c);
    NoDot(ip.d);
    FourFields(Digits.Decimal(ip.a), Digits.Decimal(ip.b), Digits.Decimal(ip.c), Digits.Decimal(ip.d));
  }

  /** inet_ntoa's text reads back as the same address, so distinct addresses have distinct texts. */
  lemma InetNtoaRoundTrip(ip: IPv4)
    ensures ParseDotted(InetNtoa(ip)) == Some(ip)
  {
    DottedFields(ip);
    var parts := Split(InetNtoa(ip), ".");
    assert forall k :: 0 <= k < 4 ==> Digits.AllDigits(parts[k]);
    Digits.DecimalRoundTrip(ip.a);
    Digits.DecimalRoundTrip(ip.b);
    Digits.DecimalRoundTrip(ip.c);
    Digits.DecimalRoundTrip(ip.d);
  }

  /** An f-string shows a missing address as "None". */
  function IpText(ip: Option<string>): string
  {
    match ip
    case None => "None"
    case Some(s) => s
  }

  /** `f"{esp32_name} ({esp32_ip})"`. */
  function DeviceEntry(name: string, ip: Option<string>): (e: string)
    ensures |e| == |name| + |IpText(ip)| + 3
    ensures e[..|name|] == name && e[|name|..|name| + 2] == " (" && e[|e| - 1] == ')'
  {
    name + " (" + IpText(ip) + ")"
  }

  /** Python's `s[:-1]`. */
  function DropLast(s: string): string
  {
    if |s| == 0 then "" else s[..|s| - 1]
  }

  /** `entry.split('(')[1][:-1]`; None where `[1]` raises IndexError (no '(' at all). */
  function ParseDeviceEntry(entry: string): (r: Option<string>)
    ensures r.None? <==> '(' !in entry
  {
    var parts := Split(entry, "(");
    if |parts| < 2 then
      assert '(' !in entry by {
        if '(' in entry {
          var k :| 0 <= k < |entry| && entry[k] == '(';
          assert entry[k..k + 1] == "(";
          assert OccursAt(entry, "(", k);
        }
      }
      None
    else
      assert '(' in entry by {
        var i := Find(entry, "(").value;
        assert entry[i..i + 1][0] == entry[i];
      }
      Some(DropLast(parts[1]))
  }

  /** The address text comes back when neither the name nor the text has a '('. */
  lemma DeviceEntryRoundTrip(name: string, ip: Option<string>)
    requires '(' !in name && '(' !in IpText(ip)
    ensures ParseDeviceEntry(DeviceEntry(name, ip)) == Some(IpText(ip))
  {
    var text := IpText(ip);
    assert DeviceEntry(name, ip) == (name + " ") + "(" + (text + ")");
    FindChar(name + " ", '(', text + ")");
    SplitAt(name + " ", "(", text + ")");
    NoChar(text + ")", '(');
    SplitNone(text + ")", "(");
    assert DropLast(text + ")") == text;
  }

  /**
   * A name with a '(' in it: the text between its first '(' and the entry's
   * " (" is read as the address instead.
   */
  lemma DeviceEntryParenInName(x: string, y: string, ip: Option<string>)
    requires '(' !in x && '(' !in y && '(' !in IpText(ip)
    ensures ParseDeviceEntry(DeviceEntry(x + "(" + y, ip)) == Some(y)
  {
    var text := IpText(ip);
    var rest := (y + " ") + "(" + (text + ")");
    assert DeviceEntry(x + "(" + y, ip) == x + "(" + rest;
    FindChar(x, '(', rest);
    SplitAt(x, "(", rest);
    FindChar(y + " ", '(', text + ")");
    SplitAt(y + " ", "(", text + ")");
    assert DropLast(y + " ") == y;
  }

  /** A device without an address is shown, and read back, as "None". */
  lemma NoAddressReadsAsNone(name: string)
    requires '(' !in name
    ensures ParseDeviceEntry(DeviceEntry(name, None)) == Some("None")
  {
    DeviceEntryRoundTrip(name, None);
  }

  /** `f"{file_name} - {file_size}"`. */
  function FileEntry(name: string, size: string): string
  {
    name + DASH + size
  }

  /** `entry.split(' - ')[0].strip()`. */
  function ParseFileEntry(entry: string): (name: string)
    ensures Stripped(name) && !Contains(name, DASH)
  {
    var first := Split(entry, DASH)[0];
    SplitPartsClean(entry, DASH);
    StripShape(first);
    StripInfixClean(first, DASH);
    Strip(first)
  }

  /** The name comes back from its entry when it is stripped, has no " - " and does not end in " -". */
  lemma FileEntryRoundTrip(name: string, size: string)
    requires Stripped(name) && DashFree(name)
    ensures ParseFileEntry(FileEntry(name, size)) == name
  {
    FindDash(name, size);
    SplitAt(name, DASH, size);
    StripStripped(name);
  }

  /** A name ending in " -" loses that ending: "a -" is read back as "a". */
  lemma FileEntryDashEnding(size: string)
    ensures ParseFileEntry(FileEntry("a -", size)) == "a"
  {
    var s := FileEntry("a -", size);
    assert s[1..4] == DASH;
    assert s[0..3] == "a -";
    assert !OccursAt(s, DASH, 0);
    FindFirst(s, DASH, 1);
    assert Split(s, DASH)[0] == "a";
    StripStripped("a");
  }
}
