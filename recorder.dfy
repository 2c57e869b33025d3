/**
 * The recording state of the firmware: the globals isRecording,
 * totalSamples, ledState and previousMillis, the open recording file, and
 * the operations startRecording, stopRecording, recordAudio and loop() that
 * change them. The SD card, the I2S driver and the clock are inputs: whether
 * SD.open succeeds, the buffer i2s_read fills and the value millis() returns
 * are parameters of the methods.
 */
module Recorder {
  import opened Bytes
  import WavHeader
  import RecordingName
  import Samples

  const BLINK_INTERVAL: nat := 1000
  /** bitDepth / 8: the bytes of one 32-bit I2S frame. */
  const FRAME_BYTES: nat := 4
  /** Size of the I2S read buffer i2sData, in bytes; it holds 512 int16 samples. */
  const I2S_BUFFER_BYTES: nat := 1024

  /** The `File recordingFile` handle: its path, its 44 header bytes and the count of audio bytes after them. */
  datatype RecFile =
    | NoFile
    | OpenFailed(path: string)
    | File(path: string, header: seq<byte>, audioBytes: nat, open: bool)
  {
    /** `if (recordingFile)` on a handle that has not been closed. */
    predicate IsOpen() {
      File? && open
    }
  }

  /** `currentMillis - previousMillis` computed on unsigned long: modulo 2^32. */
  function Elapsed(previous: uint32, current: uint32): (d: uint32)
    ensures (previous + d) % TWO_TO_32 == current
  {
    var d := (current - previous) % TWO_TO_32;
    DivMod(previous + d, TWO_TO_32, -((current - previous) / TWO_TO_32), current);
    d
  }

  /** The elapsed time is the plain difference, or the difference across one wrap of millis(). */
  lemma ElapsedAcrossWrap(previous: uint32, current: uint32)
    ensures previous <= current ==> Elapsed(previous, current) == current - previous
    ensures current < previous ==> Elapsed(previous, current) == current + TWO_TO_32 - previous
  {
    if current < previous {
      DivMod(current - previous, TWO_TO_32, -1, current + TWO_TO_32 - previous);
    }
  }

  /**
   * The argument stopRecording passes to writeWavHeader: the uint64 product
   * totalSamples * (bitDepth / 8), wrapping modulo 2^64, converted to int.
   */
  function StopFileSize(totalSamples: uint64): (size: int32)
    ensures size % TWO_TO_32 == (4 * totalSamples) % TWO_TO_32
  {
    var wrapped := (totalSamples * FRAME_BYTES) % TWO_TO_64;
    var q := (totalSamples * FRAME_BYTES) / TWO_TO_64;
    assert 4 * totalSamples == wrapped + TWO_TO_32 * (TWO_TO_32 * q);
    ModShift(wrapped, TWO_TO_32 * q);
    ToInt32(wrapped)
  }

  /**
   * The header stopRecording leaves in the file after n samples: its RIFF
   * size field holds 4n and its data size field 4n - 44 (modulo 2^32), so
   * the data chunk claims 44 bytes fewer than the 4n bytes that were counted.
   */
  lemma StopHeader(n: uint64)
    ensures WavHeader.Parse(WavHeader.Header(StopFileSize(n))).Some?
    ensures var f := WavHeader.Parse(WavHeader.Header(StopFileSize(n))).value;
      f.riffSize == (4 * n) % TWO_TO_32 && f.dataSize == (4 * n - 44) % TWO_TO_32
  {
    var size := StopFileSize(n);
    WavHeader.ParseHeader(size);
    ModDiff(4 * n, size);
    var k := (4 * n - size) / TWO_TO_32;
    assert 4 * n - 44 == size - 44 + TWO_TO_32 * k;
    ModShift(size - 44, k);
  }

  /** Adding a multiple of 2^32 does not change the low 32 bits. */
  lemma ModShift(x: int, k: int)
    ensures (x + TWO_TO_32 * k) % TWO_TO_32 == x % TWO_TO_32
  {
    DivMod(x + TWO_TO_32 * k, TWO_TO_32, x / TWO_TO_32 + k, x % TWO_TO_32);
  }

  lemma ModDiff(x: int, y: int)
    requires x % TWO_TO_32 == y % TWO_TO_32
    ensures (x - y) % TWO_TO_32 == 0
  {
    DivMod(x - y, TWO_TO_32, x / TWO_TO_32 - y / TWO_TO_32, 0);
  }

  /** The firmware's globals. */
  class Device {
    var isRecording: bool
    var totalSamples: uint64
    var ledState: bool
    /** The level last written to LED_PIN. */
    var ledHigh: bool
    var previousMillis: uint32
    var recordingFile: RecFile

    /** A device records exactly while its recording file is open, and every opened file has its header. */
    ghost predicate Valid()
      reads this
    {
      && (isRecording <==> recordingFile.IsOpen())
      && (recordingFile.File? ==> |recordingFile.header| == WavHeader.HEADER_SIZE)
    }

    /** The globals' initial values, and setup()'s `digitalWrite(LED_PIN, LOW)`. */
    constructor ()
      ensures Valid()
      ensures !isRecording && totalSamples == 0 && !ledState && !ledHigh && previousMillis == 0
      ensures recordingFile == NoFile
    {
      isRecording := false;
      totalSamples := 0;
      ledState := false;
      ledHigh := false;
      previousMillis := 0;
      recordingFile := NoFile;
    }

    /**
     * writeWavHeader on the recording file, at offset 0 (a fresh file in
     * startRecording, after seek(0) in stopRecording): the first 44 bytes
     * become the header.
     */
    method WriteWavHeader(fileSize: int32)
      requires recordingFile.IsOpen()
      modifies this
      ensures recordingFile == old(recordingFile).(header := WavHeader.Header(fileSize))
      ensures isRecording == old(isRecording) && totalSamples == old(totalSamples)
      ensures ledState == old(ledState) && ledHigh == old(ledHigh) && previousMillis == old(previousMillis)
    {
      var header := WavHeader.BuildHeader(fileSize);
      recordingFile := recordingFile.(header := header[..]);
    }

    /**
     * startRecording, given the calendar fields of the shifted clock and
     * whether SD.open succeeds. Already recording: nothing happens. A failed
     * open: the device stays idle and only the file handle changes. Else the
     * new file holds a size-0 header and the sample count restarts at 0.
     */
    method StartRecording(clock: RecordingName.Tm, openOk: bool)
      requires Valid() && RecordingName.ValidTm(clock)
      modifies this
      ensures Valid()
      ensures old(isRecording) ==> unchanged(this)
      ensures !old(isRecording) && !openOk ==>
        && !isRecording && recordingFile == OpenFailed(RecordingName.Path(clock))
        && totalSamples == old(totalSamples)
      ensures !old(isRecording) && openOk ==>
        && isRecording && totalSamples == 0
        && recordingFile == File(RecordingName.Path(clock), WavHeader.Header(0), 0, true)
      ensures ledState == old(ledState) && ledHigh == old(ledHigh) && previousMillis == old(previousMillis)
    {
      if isRecording {
        return;
      }
      var fileName := RecordingName.Path(clock);
      if !openOk {
        recordingFile := OpenFailed(fileName);
        return;
      }
      recordingFile := File(fileName, [], 0, true);
      WriteWavHeader(0);
      isRecording := true;
      totalSamples := 0;
    }

    /**
     * stopRecording. Not recording: nothing happens. Else the device goes
     * idle, the header is rewritten with fileSize = totalSamples * 4, the
     * file is closed and the LED is driven low; totalSamples is kept.
     */
    method StopRecording()
      requires Valid()
      modifies this
      ensures Valid()
      ensures !old(isRecording) ==> unchanged(this)
      ensures old(isRecording) ==>
        && !isRecording && !ledHigh
        && recordingFile == old(recordingFile).(header := WavHeader.Header(StopFileSize(old(totalSamples))), open := false)
      ensures totalSamples == old(totalSamples) && ledState == old(ledState) && previousMillis == old(previousMillis)
    {
      if !isRecording {
        return;
      }
      isRecording := false;
      WriteWavHeader(StopFileSize(totalSamples));
      recordingFile := recordingFile.(open := false);
      ledHigh := false;
    }

    /**
     * recordAudio after i2s_read filled `samples` (the 1024-byte buffer seen
     * as 512 int16 values) with bytesRead bytes: the first bytesRead / 2
     * samples go through the gain-and-clamp loop, bytesRead bytes are
     * appended to the file and the sample count grows by bytesRead / 4,
     * modulo 2^64 like the uint64_t counter.
     */
    method RecordAudio(samples: array<Samples.int16>, bytesRead: nat)
      requires Valid() && samples.Length == I2S_BUFFER_BYTES / 2 && bytesRead <= I2S_BUFFER_BYTES
      modifies this, samples
      ensures Valid()
      ensures totalSamples == (old(totalSamples) + bytesRead / FRAME_BYTES) % TWO_TO_64
      ensures recordingFile == if old(recordingFile).IsOpen()
        then old(recordingFile).(audioBytes := old(recordingFile).audioBytes + bytesRead)
        else old(recordingFile)
      ensures isRecording == old(isRecording)
      ensures ledState == old(ledState) && ledHigh == old(ledHigh) && previousMillis == old(previousMillis)
    {
      if bytesRead > 0 {
        var numSamples := bytesRead / 2;
        var maxSample := Samples.AmplifyInPlace(samples, numSamples);
        // The float normalisation by INT16_MAX / maxSample is not modelled.
        if recordingFile.IsOpen() {
          recordingFile := recordingFile.(audioBytes := recordingFile.audioBytes + bytesRead);
        }
        totalSamples := (totalSamples + bytesRead / FRAME_BYTES) % TWO_TO_64;
      } else {
        assert totalSamples % TWO_TO_64 == totalSamples;
      }
    }

    /**
     * One pass of loop(). Recording: record one buffer, then toggle the LED
     * and remember the time exactly when at least 1000 ms have passed on the
     * wrapping millis() clock. Idle: drive the LED low.
     */
    method Loop(samples: array<Samples.int16>, bytesRead: nat, currentMillis: uint32)
      requires Valid() && samples.Length == I2S_BUFFER_BYTES / 2 && bytesRead <= I2S_BUFFER_BYTES
      modifies this, samples
      ensures Valid()
      ensures !old(isRecording) ==>
        && !ledHigh && ledState == old(ledState) && previousMillis == old(previousMillis)
        && totalSamples == old(totalSamples) && recordingFile == old(recordingFile) && !isRecording
      ensures old(isRecording) ==>
        && isRecording
        && totalSamples == (old(totalSamples) + bytesRead / FRAME_BYTES) % TWO_TO_64
        && recordingFile == old(recordingFile).(audioBytes := old(recordingFile).audioBytes + bytesRead)
      ensures old(isRecording) && Elapsed(old(previousMillis), currentMillis) >= BLINK_INTERVAL ==>
        previousMillis == currentMillis && ledState == !old(ledState) && ledHigh == ledState
      ensures old(isRecording) && Elapsed(old(previousMillis), currentMillis) < BLINK_INTERVAL ==>
        previousMillis == old(previousMillis) && ledState == old(ledState) && ledHigh == old(ledHigh)
    {
      if isRecording {
        RecordAudio(samples, bytesRead);
        if Elapsed(previousMillis, currentMillis) >= BLINK_INTERVAL {
          previousMillis := currentMillis;
          ledState := !ledState;
          ledHigh := ledState;
        }
      } else {
        ledHigh := false;
      }
    }
  }
}
