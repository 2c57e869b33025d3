/**
 * The name startRecording gives a new recording: "/" + device name + "_" +
 * MMDD + "_" + hhmm + ".wav", each field printed with "%02d" into a 40-byte
 * buffer by snprintf. The calendar fields are those localtime_r gives for
 * the clock shifted by seven hours (WIB, UTC+7).
 */
module RecordingName {
  import opened Digits
  import opened Wrappers

  const RECORD_NAME: string := "ESPREC-01"
  /** sizeof(fileName): snprintf keeps at most 39 characters and the terminating NUL. */
  const NAME_BUFFER_SIZE: nat := 40

  /** The `struct tm` fields the name uses: tm_mon counts months from 0. */
  datatype Tm = Tm(mon: int, mday: int, hour: int, min: int)

  /** The ranges localtime_r guarantees for these fields. */
  predicate ValidTm(t: Tm) {
    0 <= t.mon <= 11 && 1 <= t.mday <= 31 && 0 <= t.hour <= 23 && 0 <= t.min <= 59
  }

  /** What "/%s_%02d%02d_%02d%02d.wav" formats, before snprintf's truncation. */
  function Formatted(t: Tm): (s: string)
    requires ValidTm(t)
    ensures |s| == 24
  {
    "/" + RECORD_NAME + "_" + Pad2(t.mon + 1) + Pad2(t.mday) + "_" + Pad2(t.hour) + Pad2(t.min) + ".wav"
  }

  /** snprintf into a buffer of `size` bytes keeps the first size - 1 characters. */
  function Truncate(s: string, size: nat): (r: string)
    requires size > 0
    ensures |r| < size && r <= s
    ensures |s| < size ==> r == s
  {
    if |s| < size then s else s[..size - 1]
  }

  /** The path startRecording opens: the formatted name fits the buffer, so nothing is cut. */
  function Path(t: Tm): (p: string)
    requires ValidTm(t)
    ensures p == Formatted(t) && |p| == 24
  {
    Truncate(Formatted(t), NAME_BUFFER_SIZE)
  }

  /**
   * The path is the full 24-character layout (it always fits the buffer):
   * '/', the device name, '_', month (tm_mon + 1) and day, '_', hour and
   * minute, ".wav", every field two zero-padded digits.
   */
  lemma PathLayout(t: Tm)
    requires ValidTm(t)
    ensures var p := Path(t);
      |p| == 24 && p == Formatted(t)
      && p[0] == '/' && p[1..10] == RECORD_NAME && p[10] == '_' && p[15] == '_' && p[20..] == ".wav"
      && p[11..13] == Pad2(t.mon + 1) && p[13..15] == Pad2(t.mday)
      && p[16..18] == Pad2(t.hour) && p[18..20] == Pad2(t.min)
  {
    var p := Formatted(t);
    var mmdd := Pad2(t.mon + 1) + Pad2(t.mday);
    var hhmm := Pad2(t.hour) + Pad2(t.min);
    assert p == "/" + RECORD_NAME + "_" + mmdd + "_" + hhmm + ".wav";
    assert p[11..15] == mmdd;
    assert p[16..20] == hhmm;
  }

  /** Reads the calendar fields back from a recording path; None if it does not have the layout. */
  function ParsePath(p: string): Option<Tm> {
    if |p| == 24 && p[0] == '/' && p[1..10] == RECORD_NAME && p[10] == '_' && p[15] == '_'
       && p[20..] == ".wav"
       && AllDigits(p[11..13]) && AllDigits(p[13..15]) && AllDigits(p[16..18]) && AllDigits(p[18..20])
    then Some(Tm(Value(p[11..13]) - 1, Value(p[13..15]), Value(p[16..18]), Value(p[18..20])))
    else None
  }

  lemma ParsePathRoundTrip(t: Tm)
    requires ValidTm(t)
    ensures ParsePath(Path(t)) == Some(t)
  {
    PathLayout(t);
    var p := Path(t);
    Pad2RoundTrip(t.mon + 1);
    Pad2RoundTrip(t.mday);
    Pad2RoundTrip(t.hour);
    Pad2RoundTrip(t.min);
  }

  /**
   * Two recordings get the same path exactly when they start on the same
   * month, day, hour and minute (of any year), so a recording started in the
   * same minute as an earlier one opens that one's file again.
   */
  lemma SamePathIffSameMinute(t: Tm, u: Tm)
    requires ValidTm(t) && ValidTm(u)
    ensures Path(t) == Path(u) <==> t == u
  {
    if Path(t) == Path(u) {
      ParsePathRoundTrip(t);
      ParsePathRoundTrip(u);
    }
  }
}
