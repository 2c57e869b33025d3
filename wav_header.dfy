/**
 * The 44-byte header the firmware writes at the start of every recording:
 * a RIFF "WAVE" form with a PCM "fmt " chunk (mono, 48 kHz, 32 bits per
 * sample) followed by the header of the "data" chunk. The fields are as the
 * firmware writes them, which for the two size fields is not what the RIFF
 * form prescribes (see SizeFieldsDifferBy44).
 */
module WavHeader {
  import opened Bytes
  import opened Wrappers

  const HEADER_SIZE: nat := 44
  const SAMPLE_RATE: nat := 48000
  const BITS_PER_SAMPLE: nat := 32
  const CHANNELS: nat := 1
  const BYTE_RATE: nat := SAMPLE_RATE * CHANNELS * BITS_PER_SAMPLE / 8
  const BLOCK_ALIGN: nat := CHANNELS * BITS_PER_SAMPLE / 8

  /** The ASCII codes of a four-character chunk identifier. */
  function Tag(s: string): (r: seq<byte>)
    requires |s| == 4 && forall i :: 0 <= i < 4 ==> s[i] as int < 128
    ensures |r| == 4
  {
    [s[0] as int, s[1] as int, s[2] as int, s[3] as int]
  }

  /** Bytes 0 to 11: "RIFF", the RIFF size field (here fileSize itself) and "WAVE". */
  function RiffPart(fileSize: int32): (r: seq<byte>)
    ensures |r| == 12
  {
    Tag("RIFF") + LittleEndian32(fileSize) + Tag("WAVE")
  }

  /** Bytes 12 to 35: the whole "fmt " chunk. It does not depend on the argument. */
  function FmtPart(): (r: seq<byte>)
    ensures r == [
      0x66, 0x6D, 0x74, 0x20, 16, 0, 0, 0,
      1, 0, 1, 0, 0x80, 0xBB, 0x00, 0x00,
      0x00, 0xEE, 0x02, 0x00, 4, 0, 32, 0]
  {
    Tag("fmt ") + [16, 0, 0, 0] + [1, 0] + [CHANNELS, 0]
    + LittleEndian32(SAMPLE_RATE) + LittleEndian32(BYTE_RATE)
    + [BLOCK_ALIGN, 0] + [BITS_PER_SAMPLE, 0]
  }

  /** Bytes 36 to 43: "data" and the data size field (here fileSize - 44). */
  function DataPart(fileSize: int32): (r: seq<byte>)
    ensures |r| == 8
  {
    Tag("data") + LittleEndian32(fileSize - 44)
  }

  /** The header bytes writeWavHeader produces for its `fileSize` argument. */
  function Header(fileSize: int32): (h: seq<byte>)
    ensures |h| == HEADER_SIZE
  {
    RiffPart(fileSize) + FmtPart() + DataPart(fileSize)
  }

  /**
   * Fills a fresh 44-byte buffer as writeWavHeader does, one field at a
   * time; the three blocks below are the three commented blocks of the
   * firmware's function.
   */
  method BuildHeader(fileSize: int32) returns (header: array<byte>)
    ensures fresh(header) && header[..] == Header(fileSize)
  {
    header := new byte[44];
    WriteRiffPart(header, fileSize);
    WriteFmtPart(header);
    WriteDataPart(header, fileSize);
    assert header[..] == header[..12] + header[12..36] + header[36..];
  }

  method WriteRiffPart(header: array<byte>, fileSize: int32)
    requires header.Length == HEADER_SIZE
    modifies header
    ensures header[..12] == RiffPart(fileSize)
    ensures header[12..] == old(header[12..])
  {
    WriteTag(header, 0, "RIFF");
    WriteField32(header, 4, fileSize);
    WriteTag(header, 8, "WAVE");
    assert header[..12] == header[0..4] + header[4..8] + header[8..12];
  }

  method WriteFmtPart(header: array<byte>)
    requires header.Length == HEADER_SIZE
    modifies header
    ensures header[..12] == old(header[..12])
    ensures header[12..36] == FmtPart()
    ensures header[36..] == old(header[36..])
  {
    var sampleRate := 48000;
    var bitsPerSample := 32;
    var channels := 1;
    var byteRate := sampleRate * channels * bitsPerSample / 8;
    var blockAlign := channels * bitsPerSample / 8;
    WriteFmtHead(header, channels);
    WriteFmtRates(header, sampleRate, byteRate, blockAlign, bitsPerSample);
    assert header[12..36] == header[12..24] + header[24..36];
  }

  /** "fmt ", the chunk size 16, audio format 1 (PCM) and the channel count. */
  method WriteFmtHead(header: array<byte>, channels: byte)
    requires header.Length == HEADER_SIZE
    modifies header
    ensures header[..12] == old(header[..12])
    ensures header[12..24] == Tag("fmt ") + [16, 0, 0, 0] + [1, 0] + [channels, 0]
    ensures header[24..] == old(header[24..])
  {
    WriteTag(header, 12, "fmt ");
    header[16], header[17], header[18], header[19] := 16, 0, 0, 0;
    header[20], header[21], header[22], header[23] := 1, 0, channels, 0;
  }

  /** The sample rate and byte rate (32 bits each), block align and bits per sample. */
  method WriteFmtRates(header: array<byte>, sampleRate: int32, byteRate: int32, blockAlign: byte, bitsPerSample: byte)
    requires header.Length == HEADER_SIZE
    modifies header
    ensures header[..24] == old(header[..24])
    ensures header[24..36] == LittleEndian32(sampleRate) + LittleEndian32(byteRate) + [blockAlign, 0] + [bitsPerSample, 0]
    ensures header[36..] == old(header[36..])
  {
    WriteField32(header, 24, sampleRate);
    WriteField32(header, 28, byteRate);
    header[32], header[33], header[34], header[35] := blockAlign, 0, bitsPerSample, 0;
    assert header[24..36] == header[24..28] + header[28..32] + header[32..36];
  }

  /** The four ASCII characters of a chunk identifier at `at`. */
  method WriteTag(header: array<byte>, at: nat, tag: string)
    requires at + 4 <= header.Length
    requires |tag| == 4 && forall i :: 0 <= i < 4 ==> tag[i] as int < 128
    modifies header
    ensures header[at..at + 4] == Tag(tag)
    ensures forall k :: 0 <= k < header.Length && (k < at || at + 4 <= k) ==> header[k] == old(header[k])
  {
    header[at], header[at + 1], header[at + 2], header[at + 3] := tag[0] as int, tag[1] as int, tag[2] as int, tag[3] as int;
  }

  /** Four bytes of a 32-bit field at `at`, least significant first, by shift and mask. */
  method WriteField32(header: array<byte>, at: nat, x: int)
    requires at + 4 <= header.Length
    modifies header
    ensures header[at..at + 4] == LittleEndian32(x)
    ensures forall k :: 0 <= k < header.Length && (k < at || at + 4 <= k) ==> header[k] == old(header[k])
  {
    header[at] := ShiftMask(x, 0);
    header[at + 1] := ShiftMask(x, 1);
    header[at + 2] := ShiftMask(x, 2);
    header[at + 3] := ShiftMask(x, 3);
  }

  method WriteDataPart(header: array<byte>, fileSize: int32)
    requires header.Length == HEADER_SIZE
    modifies header
    ensures header[..36] == old(header[..36])
    ensures header[36..] == DataPart(fileSize)
  {
    WriteTag(header, 36, "data");
    WriteField32(header, 40, fileSize - 44);
    assert header[36..] == header[36..40] + header[40..44];
  }

  /** The header fields a RIFF WAVE reader takes from a canonical 44-byte header. */
  datatype Fields = Fields(
    riffSize: nat,
    fmtSize: nat,
    audioFormat: nat,
    channels: nat,
    sampleRate: nat,
    byteRate: nat,
    blockAlign: nat,
    bitsPerSample: nat,
    dataSize: nat)

  /** Reads a canonical 44-byte header; None unless its four chunk identifiers are in place. */
  function Parse(h: seq<byte>): Option<Fields> {
    if |h| == HEADER_SIZE && h[0..4] == Tag("RIFF") && h[8..12] == Tag("WAVE")
       && h[12..16] == Tag("fmt ") && h[36..40] == Tag("data")
    then Some(Fields(
      DecodeLE(h[4..8]), DecodeLE(h[16..20]), DecodeLE(h[20..22]), DecodeLE(h[22..24]),
      DecodeLE(h[24..28]), DecodeLE(h[28..32]), DecodeLE(h[32..34]), DecodeLE(h[34..36]),
      DecodeLE(h[40..44])))
    else None
  }

  /** Where the fields of Header lie. */
  lemma HeaderParts(fileSize: int32)
    ensures Header(fileSize)[0..4] == Tag("RIFF")
    ensures Header(fileSize)[4..8] == LittleEndian32(fileSize)
    ensures Header(fileSize)[8..12] == Tag("WAVE")
    ensures Header(fileSize)[12..36] == FmtPart()
    ensures Header(fileSize)[36..40] == Tag("data")
    ensures Header(fileSize)[40..44] == LittleEndian32(fileSize - 44)
  {
    var r, f, d := RiffPart(fileSize), FmtPart(), DataPart(fileSize);
    var h := r + f + d;
    assert h == Header(fileSize);
    assert h[0..12] == r;
    assert h[12..36] == f;
    assert h[36..44] == d;
    assert r[0..4] == Tag("RIFF") && r[4..8] == LittleEndian32(fileSize) && r[8..12] == Tag("WAVE");
    assert d[0..4] == Tag("data") && d[4..8] == LittleEndian32(fileSize - 44);
  }

  /** The fields of the "fmt " chunk, decoded. */
  lemma FmtFields()
    ensures FmtPart()[0..4] == Tag("fmt ")
    ensures DecodeLE(FmtPart()[4..8]) == 16
    ensures DecodeLE(FmtPart()[8..10]) == 1
    ensures DecodeLE(FmtPart()[10..12]) == 1
    ensures DecodeLE(FmtPart()[12..16]) == 48000
    ensures DecodeLE(FmtPart()[16..20]) == 192000
    ensures DecodeLE(FmtPart()[20..22]) == 4
    ensures DecodeLE(FmtPart()[22..24]) == 32
  {
    FmtFormatFields(FmtPart());
    FmtRateFields(FmtPart());
  }

  /** The identifier, chunk size, format and channel count of the "fmt " chunk. */
  lemma FmtFormatFields(f: seq<byte>)
    requires f == [
      0x66, 0x6D, 0x74, 0x20, 16, 0, 0, 0,
      1, 0, 1, 0, 0x80, 0xBB, 0x00, 0x00,
      0x00, 0xEE, 0x02, 0x00, 4, 0, 32, 0]
    ensures f[0..4] == Tag("fmt ")
    ensures DecodeLE(f[4..8]) == 16
    ensures DecodeLE(f[8..10]) == 1
    ensures DecodeLE(f[10..12]) == 1
  {
    assert f[0..4] == [0x66, 0x6D, 0x74, 0x20] == Tag("fmt ");
    DecodeAt4(f, 4);
    DecodeAt2(f, 8);
    DecodeAt2(f, 10);
  }

  /** The sample rate, byte rate, block alignment and sample width of the "fmt " chunk. */
  lemma FmtRateFields(f: seq<byte>)
    requires f == [
      0x66, 0x6D, 0x74, 0x20, 16, 0, 0, 0,
      1, 0, 1, 0, 0x80, 0xBB, 0x00, 0x00,
      0x00, 0xEE, 0x02, 0x00, 4, 0, 32, 0]
    ensures DecodeLE(f[12..16]) == 48000
    ensures DecodeLE(f[16..20]) == 192000
    ensures DecodeLE(f[20..22]) == 4
    ensures DecodeLE(f[22..24]) == 32
  {
    DecodeAt4(f, 12);
    DecodeAt4(f, 16);
    DecodeAt2(f, 20);
    DecodeAt2(f, 22);
  }

  /**
   * Reading back the header the firmware writes: PCM (format 1), one channel,
   * 48000 samples/s, 192000 bytes/s, 4-byte blocks, 32 bits per sample, a
   * 16-byte fmt chunk; the RIFF size field holds fileSize and the data size
   * field fileSize - 44, both modulo 2^32.
   */
  lemma ParseHeader(fileSize: int32)
    ensures Parse(Header(fileSize)) == Some(Fields(
      fileSize % TWO_TO_32, 16, 1, 1, 48000, 192000, 4, 32, (fileSize - 44) % TWO_TO_32))
  {
    var h := Header(fileSize);
    HeaderParts(fileSize);
    var fmt := FmtPart();
    FmtFields();
    assert h[12..16] == fmt[0..4];
    assert h[16..20] == fmt[4..8];
    assert h[20..22] == fmt[8..10];
    assert h[22..24] == fmt[10..12];
    assert h[24..28] == fmt[12..16];
    assert h[28..32] == fmt[16..20];
    assert h[32..34] == fmt[20..22];
    assert h[34..36] == fmt[22..24];
    LittleEndian32RoundTrip(fileSize);
    LittleEndian32RoundTrip(fileSize - 44);
  }

  /**
   * The two size fields always differ by 44 (modulo 2^32), so no argument
   * gives a header whose RIFF size is its data size plus 36, the relation
   * the RIFF WAVE form fixes for a 44-byte canonical header.
   */
  lemma SizeFieldsDifferBy44(fileSize: int32)
    ensures Parse(Header(fileSize)).Some?
    ensures var f := Parse(Header(fileSize)).value;
      f.riffSize == (f.dataSize + 44) % TWO_TO_32 && f.riffSize != f.dataSize + 36
  {
    ParseHeader(fileSize);
    var q, data := (fileSize - 44) / TWO_TO_32, (fileSize - 44) % TWO_TO_32;
    if data + 44 < TWO_TO_32 {
      DivMod(fileSize, TWO_TO_32, q, data + 44);
      DivMod(data + 44, TWO_TO_32, 0, data + 44);
    } else {
      DivMod(fileSize, TWO_TO_32, q + 1, data + 44 - TWO_TO_32);
      DivMod(data + 44, TWO_TO_32, 1, data + 44 - TWO_TO_32);
    }
  }

  /** The header startRecording writes (fileSize 0): RIFF size 0, data size field D4 FF FF FF. */
  lemma EmptyRecordingHeader()
    ensures Header(0)[4..8] == [0, 0, 0, 0]
    ensures Header(0)[40..44] == [0xD4, 0xFF, 0xFF, 0xFF]
  {
    HeaderParts(0);
  }
}
