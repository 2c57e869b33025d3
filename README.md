# A Dafny model of the ESP32 sound recorder and its desktop client

The system is a field audio recorder and its control program.

The ESP32 firmware (`Firmware_ESP/SC/src/main.cpp`) does four things:
- it records I2S audio to WAV files on an SD card;
- it names each file after the local time the recording started;
- it blinks a status LED while recording;
- it serves an HTTP API: start, stop, list, download, set the clock, delete and rename.

The Python client (`App_Client_birdnet/APP_CLIENT.py`) does four things:
- it discovers recorders over mDNS;
- it shows them, and the files of the selected one, in two listboxes;
- it keeps a small recording-session state;
- it sends the HTTP commands behind its buttons.

The model covers the parts of both programs that turn values into bytes or text, read text back, or update state flags. Each program keeps its own form:

- **Firmware.**
  - `writeWavHeader` fills a 44-byte array in place (`WavHeader.BuildHeader`). It is proved equal to the specification function `WavHeader.Header`, which a RIFF reader (`WavHeader.Parse`) decodes.
  - The firmware globals are the fields of `Recorder.Device`. Its methods `StartRecording`, `StopRecording`, `RecordAudio` and `Loop` state the device's whole new state.
  - The gain-and-clamp loop of `recordAudio` works in place on an `array` (`Samples.AmplifyInPlace`). It is proved against `Samples.AmplifyAll` and `Samples.Peak`.
  - The recording path printed by `snprintf` is `RecordingName.Path`.
  - The parameter checks of the HTTP handlers are pure functions from the query parameters to a status and an effect (`Routes`).
  - `listFiles` is a loop (`Listing.ListFiles`) proved equal to `Listing.Body`.
- **Client.**
  - The module globals and both listboxes are the fields of `ControlPanel.Panel`, and each button callback is a method.
  - Every HTTP call is two things: an input, its outcome (a status or a `RequestException`), and an output, the request sent (`Http.Request`).
  - Message boxes are outputs listed in order (`Http.Notice`).
  - The zeroconf listener is the class `Discovery.EspListener`, and `scan_esp` is a loop over the announcements it receives.
  - The listbox texts and their parsing are pure functions (`Entries`, `FileList`). They rest on a model of Python's `str.split`, `str.strip` and insertion-ordered `dict` (`PyStr`, `PyDict`).
- **Both programs.** `Interop` connects the two: what the client makes of the firmware's `/list` body, and how the firmware's handlers answer each request the client builds.

## Behaviour worth knowing

- Success is `status_code == 200` exactly in every client call. It is not treated as "any 2xx".
- A callback can raise. An entry of the device listbox without `(` makes `on_esp_select` raise `IndexError`, which the client code does not catch (`Http.Uncaught`); tkinter's callback wrapper prints it and the window keeps running.
- The client's rename sends `file` and `new_name`. The firmware handler reads `old` and `new`. So a rename from the client, with names free of '&', '#', '?', '%' and '+', is answered 400 and renames nothing (`Interop.ClientRenameRejected`). The URL is an unencoded f-string, so a typed new name such as `b&old=a.wav&new=c.wav` would reach the handler with `old` and `new` set; names like that are outside the model (`Http.UrlSafe`).
- `rename_file_command` is bound to no button (APP_CLIENT.py lines 403-406 and 485-488 create the buttons), so the window offers no way to call it.

## What the proofs say about the recordings

The header is written as the code writes it:
- The RIFF size field holds `fileSize` itself.
- The data size field holds `fileSize - 44`.
- On stop, `fileSize` is the number of audio bytes counted, `totalSamples * 4` (modulo 2^64, then the low 32 bits).

The count is not always the number of bytes written. recordAudio writes all `bytesRead` bytes of a read but counts `bytesRead / 4` frames, so a read that is not a whole number of frames leaves the count behind. The model keeps both figures (`audioBytes` of the file and `totalSamples`) and does not relate them.

So the data chunk claims 44 bytes fewer than the `4 * totalSamples` bytes counted, and the RIFF size is 36 bytes short of what the RIFF WAVE form requires. In a canonical 44-byte header the RIFF size is the data size plus 36. The two fields here always differ by 44 modulo 2^32, so no argument yields a conforming header (`WavHeader.SizeFieldsDifferBy44`, `Recorder.StopHeader`).

The size-0 header written at start has D4 FF FF FF as its data size (`WavHeader.EmptyRecordingHeader`).

The recording path depends only on month, day, hour and minute. Two recordings started in the same minute of any year reuse the same file (`RecordingName.SamePathIffSameMinute`).

The client reads the listing back as listed, one (name, size + " MB") pair per entry, when every entry is clean (`Interop.ListingRoundTrip`):
- the name is stripped, has no `" - "`, does not end in `" -"` and has no newline;
- the size text is non-empty, does not start with whitespace, has no `" - "`, does not end in `" -"` and has no newline.

This is a sufficient condition; the converse is not proved. A name ending in `" -"`, such as `"a -"`, comes back shorter (`Interop.NameEndingInDashIsCut`), so having no `" - "` and no surrounding whitespace is not enough on its own.

## Model

| member | source | states |
|---|---|---|
| WavHeader.BuildHeader | Firmware_ESP/SC/src/main.cpp:374-415 | a fresh 44-byte array whose contents are exactly Header(fileSize) |
| WavHeader.WriteRiffPart | Firmware_ESP/SC/src/main.cpp:383-389 | bytes 0-11 become "RIFF", the little-endian fileSize and "WAVE"; bytes 12-43 are untouched |
| WavHeader.WriteFmtPart | Firmware_ESP/SC/src/main.cpp:376-405 | bytes 12-35 become the fmt chunk of the computed sampleRate, byteRate and blockAlign; the other bytes are untouched |
| WavHeader.WriteFmtHead | Firmware_ESP/SC/src/main.cpp:392-395 | bytes 12-23 are "fmt ", chunk size 16, format 1 and the channel count; the other bytes are untouched |
| WavHeader.WriteFmtRates | Firmware_ESP/SC/src/main.cpp:396-405 | bytes 24-35 are the two rates little-endian, then block align and bits per sample; the other bytes are untouched |
| WavHeader.WriteField32 | Firmware_ESP/SC/src/main.cpp:396-399 | four shift-and-mask writes put the little-endian low 32 bits of x at the offset and change no other byte |
| WavHeader.WriteTag | Firmware_ESP/SC/src/main.cpp:384 | four character writes put the ASCII codes of a chunk identifier at the offset and change no other byte |
| WavHeader.WriteDataPart | Firmware_ESP/SC/src/main.cpp:407-412 | bytes 36-43 become "data" and the little-endian fileSize - 44; bytes 0-35 are untouched |
| WavHeader.FmtPart | Firmware_ESP/SC/src/main.cpp:391-405 | the fmt chunk is the 24 bytes 66 6D 74 20 10 00 00 00 01 00 01 00 80 BB 00 00 00 EE 02 00 04 00 20 00 |
| WavHeader.Header | Firmware_ESP/SC/src/main.cpp:375 | the header is exactly 44 bytes long |
| WavHeader.HeaderParts | Firmware_ESP/SC/src/main.cpp:384-412 | "RIFF" at 0-3, "WAVE" at 8-11, "fmt " at 12-15 and "data" at 36-39; the size fields at 4-7 and 40-43 |
| WavHeader.FmtFields | Firmware_ESP/SC/src/main.cpp:393-405 | decoded fmt fields: size 16, PCM format 1, 1 channel, 48000 Hz, 192000 bytes/s, block align 4, 32 bits |
| WavHeader.ParseHeader | Firmware_ESP/SC/src/main.cpp:374-415 | a RIFF reader accepts the header and reads the fixed fields, fileSize mod 2^32 as the RIFF size and (fileSize - 44) mod 2^32 as the data size |
| WavHeader.SizeFieldsDifferBy44 | Firmware_ESP/SC/src/main.cpp:385-412 | the RIFF size is always the data size + 44 (mod 2^32), never the data size + 36 |
| WavHeader.EmptyRecordingHeader | Firmware_ESP/SC/src/main.cpp:409-412 | for fileSize 0 the RIFF size bytes are 00 00 00 00 and the data size bytes D4 FF FF FF |
| Bytes.LittleEndian32 | Firmware_ESP/SC/src/main.cpp:385-388 | a 32-bit field is written as four bytes |
| Bytes.LittleEndian32RoundTrip | Firmware_ESP/SC/src/main.cpp:385-388 | decoding the four written bytes little-endian gives x mod 2^32 |
| Bytes.LittleEndian32Wraps | Firmware_ESP/SC/src/main.cpp:409-412 | two values with the same low 32 bits are written as the same four bytes |
| Bytes.ShiftMaskLow | Firmware_ESP/SC/src/main.cpp:385-388 | each written byte depends only on the low 32 bits of the value |
| WavHeader.RiffPart | Firmware_ESP/SC/src/main.cpp:384-389 | the RIFF part of the header is 12 bytes |
| WavHeader.DataPart | Firmware_ESP/SC/src/main.cpp:408-412 | the data chunk head is 8 bytes |
| Bytes.ToInt32 | Firmware_ESP/SC/src/main.cpp:300 | the conversion to the int parameter is a 32-bit value with the same low 32 bits |
| Recorder.StopHeader | Firmware_ESP/SC/src/main.cpp:300 | after n counted samples the final header has RIFF size 4n and data size 4n - 44, both mod 2^32 |
| Recorder.Elapsed | Firmware_ESP/SC/src/main.cpp:258 | the unsigned-long difference is the uint32 d with previous + d = current modulo 2^32 |
| Recorder.StopFileSize | Firmware_ESP/SC/src/main.cpp:300 | the int argument has the low 32 bits of 4 * totalSamples |
| Recorder.ElapsedAcrossWrap | Firmware_ESP/SC/src/main.cpp:258 | the unsigned-long elapsed time is the plain difference, or the difference across one wrap of millis() |
| Recorder.Device.constructor | Firmware_ESP/SC/src/main.cpp:57-66 | the globals start idle: no file, count 0, LED off, previousMillis 0 |
| Recorder.Device.WriteWavHeader | Firmware_ESP/SC/src/main.cpp:414 | the open file's first 44 bytes become Header(fileSize); nothing else changes |
| Recorder.Device.StartRecording | Firmware_ESP/SC/src/main.cpp:268-293 | does nothing when already recording; a failed open leaves the device idle with only the handle changed; otherwise the file at Path(clock) holds a size-0 header, the device records and the count is 0 |
| Recorder.Device.StopRecording | Firmware_ESP/SC/src/main.cpp:295-306 | does nothing when idle; otherwise the device goes idle, the header is rewritten with StopFileSize(totalSamples), the file is closed and the LED is low |
| Recorder.Device.RecordAudio | Firmware_ESP/SC/src/main.cpp:332-372 | an open file grows by exactly bytesRead bytes and the count grows by bytesRead / 4 mod 2^64 |
| Recorder.Device.Loop | Firmware_ESP/SC/src/main.cpp:252-266 | recording: one buffer is recorded, and the LED toggles and previousMillis becomes currentMillis exactly when the wrapped elapsed time is at least 1000; idle: the LED is driven low and nothing else changes |
| Samples.AmplifyInPlace | Firmware_ESP/SC/src/main.cpp:343-359 | the first n samples become AmplifyAll of their old values, the rest are untouched, and maxSample is their Peak |
| Samples.AmplifySaturates | Firmware_ESP/SC/src/main.cpp:346-353 | a clamped sample is an int16; it is 18x exactly for \|x\| <= 1820 and saturates otherwise |
| Samples.Clamp | Firmware_ESP/SC/src/main.cpp:347-353 | the clipped value is an int16, and a value already in range is kept |
| Samples.Amplify | Firmware_ESP/SC/src/main.cpp:346-353 | a sample after the gain and the clamp is an int16, and is exactly 18x for \|x\| <= 1820 |
| Samples.AmplifyAll | Firmware_ESP/SC/src/main.cpp:345 | one output sample per input sample |
| Samples.AmplifyAllAt | Firmware_ESP/SC/src/main.cpp:345-355 | sample i of the result is the amplified sample i |
| Samples.PeakIsMaximum | Firmware_ESP/SC/src/main.cpp:356-358 | `Samples.Peak`, the final maxSample, bounds every absolute value, equals one of them, and is 0 exactly when every sample is 0 |
| Samples.AmplifiedInRange | Firmware_ESP/SC/src/main.cpp:345-359 | after the loop every sample lies in [-32768, 32767] and maxSample is at most 32768 |
| RecordingName.Formatted | Firmware_ESP/SC/src/main.cpp:277 | the formatted name is 24 characters long |
| RecordingName.Path | Firmware_ESP/SC/src/main.cpp:276-277 | the 24-character formatted name fits the 40-byte buffer, so snprintf does not cut it |
| RecordingName.Truncate | Firmware_ESP/SC/src/main.cpp:276-277 | snprintf keeps a prefix shorter than the buffer, all of a text that fits |
| RecordingName.PathLayout | Firmware_ESP/SC/src/main.cpp:277 | the path is 24 characters: "/ESPREC-01_", MM (tm_mon + 1) and DD, "_", hh and mm, ".wav", each field two zero-padded digits |
| RecordingName.ParsePathRoundTrip | Firmware_ESP/SC/src/main.cpp:277 | the calendar fields read back from the path are those it was made from |
| RecordingName.SamePathIffSameMinute | Firmware_ESP/SC/src/main.cpp:277 | two start times give the same path exactly when month, day, hour and minute agree |
| Digits.Pad2 | Firmware_ESP/SC/src/main.cpp:277 | "%02d" of 0..99 is exactly two decimal digits |
| Digits.Pad2RoundTrip | Firmware_ESP/SC/src/main.cpp:277 | the two digits denote the number |
| Listing.Line | Firmware_ESP/SC/src/main.cpp:423 | a listing line ends in a newline and is 7 characters longer than the name and the size together (its split back into the fields is Interop.LineFields) |
| Listing.ListFiles | Firmware_ESP/SC/src/main.cpp:417-427 | the loop over the directory returns Body of the entries |
| Listing.Body | Firmware_ESP/SC/src/main.cpp:417-427 | the listing is empty exactly for an empty directory |
| Listing.BodyCons | Firmware_ESP/SC/src/main.cpp:421-425 | the listing is the first entry's line followed by the listing of the rest |
| Routes.Download | Firmware_ESP/SC/src/main.cpp:161-189 | 400 exactly without `file`, 404 exactly when "/" + file is missing or a directory, and otherwise 200 streaming that path |
| Routes.SetTime | Firmware_ESP/SC/src/main.cpp:191-201 | 400 exactly without `time`; else 200 and the clock is set from that text |
| Routes.Delete | Firmware_ESP/SC/src/main.cpp:203-211 | 400 exactly without `file`; else always 200, removing "/" + file whether or not that succeeds |
| Routes.RenameFile | Firmware_ESP/SC/src/main.cpp:213-225 | 400 exactly unless both `old` and `new` are present; then 200 or 500 by the result of renaming "/" + old to "/" + new |
| Routes.ExtraParamsIgnored | Firmware_ESP/SC/src/main.cpp:161-211 | a parameter other than the ones a handler reads does not change its answer |
| Discovery.FirstAddress | App_Client_birdnet/APP_CLIENT.py:31 | None exactly when there is no address; else a text that reads back as the first address |
| Discovery.Register | App_Client_birdnet/APP_CLIENT.py:30-32 | registering keeps the registry a well-formed dict |
| Discovery.ScanResult | App_Client_birdnet/APP_CLIENT.py:37-43 | the scan's result is a well-formed dict |
| Discovery.ScanLookup | App_Client_birdnet/APP_CLIENT.py:28-43 | a name is found exactly when one of its announcements came with service info, and it maps to the first address of the last such one |
| Discovery.ScanEmpty | App_Client_birdnet/APP_CLIENT.py:30-43 | the scan is empty exactly when no announcement came with service info |
| Discovery.EspListener.constructor | App_Client_birdnet/APP_CLIENT.py:25-26 | a new listener holds the empty dict |
| Discovery.EspListener.AddService | App_Client_birdnet/APP_CLIENT.py:28-32 | the dict becomes Register of the old dict and the announcement |
| Discovery.ScanEsp | App_Client_birdnet/APP_CLIENT.py:37-43 | a fresh listener fed the announcements in order returns ScanResult of them |
| PyDict.Empty | App_Client_birdnet/APP_CLIENT.py:26 | `{}` is a well-formed, empty dict |
| PyDict.Put | App_Client_birdnet/APP_CLIENT.py:32 | `d[k] = v` stores v under k, keeps every other key and value, keeps the key order, appends a new key, and leaves the dict non-empty |
| PyDict.Items | App_Client_birdnet/APP_CLIENT.py:242 | one (key, value) pair per key, in insertion order |
| Entries.InetNtoa | App_Client_birdnet/APP_CLIENT.py:31 | the address text consists of digits and dots |
| Entries.InetNtoaRoundTrip | App_Client_birdnet/APP_CLIENT.py:31 | the dotted-decimal text reads back as the same address |
| Entries.ParseDotted | App_Client_birdnet/APP_CLIENT.py:31 | an accepted text has four dot-separated fields |
| Entries.DeviceEntry | App_Client_birdnet/APP_CLIENT.py:242 | a device row is the name, then " (", then as many characters as the address text has, then a final ')' (the address text itself is Entries.DeviceEntryRoundTrip) |
| Entries.ParseDeviceEntry | App_Client_birdnet/APP_CLIENT.py:251 | `split('(')[1]` fails exactly when the entry has no '(' |
| Entries.DeviceEntryRoundTrip | App_Client_birdnet/APP_CLIENT.py:243-251 | a device entry reads back as its address text when neither the name nor that text has '('; the `[:-1]` (`Entries.DropLast`) removes exactly the closing ')', leaving the address text (`Entries.IpText`) |
| Entries.DeviceEntryParenInName | App_Client_birdnet/APP_CLIENT.py:243-251 | a name with a '(' reads back as the text between its first and second '(', not as the address |
| Entries.NoAddressReadsAsNone | App_Client_birdnet/APP_CLIENT.py:243-251 | a device without an address (`Entries.IpText` of None) reads back as the text "None" |
| Entries.ParseFileEntry | App_Client_birdnet/APP_CLIENT.py:295 | the file name read from a listbox row is stripped and has no " - " |
| Entries.FileEntryRoundTrip | App_Client_birdnet/APP_CLIENT.py:286-295 | a row (`Entries.FileEntry`, `f"{name} - {size}"`) reads back as its name when the name is stripped, has no " - " and does not end in " -" |
| Entries.FileEntryDashEnding | App_Client_birdnet/APP_CLIENT.py:286-295 | the row of the name "a -" reads back as "a" |
| FileList.ParseEntry | App_Client_birdnet/APP_CLIENT.py:135-137 | the name is stripped without " - "; a line without " - " gives its stripped text and "Unknown size" |
| FileList.ParseEntryOneDash | App_Client_birdnet/APP_CLIENT.py:135-137 | a line a + " - " + b with no other " - " gives the stripped a as name and the stripped b as size |
| FileList.ParseEntryTwoDashes | App_Client_birdnet/APP_CLIENT.py:135-137 | with a second " - ", the size is the stripped text between the two and everything after the second is dropped |
| FileList.ParseFileList | App_Client_birdnet/APP_CLIENT.py:131-138 | at most one pair per line of the body |
| FileList.ParseFileListNames | App_Client_birdnet/APP_CLIENT.py:131-138 | every name in the parsed list is stripped and has no " - " |
| FileList.ParseLinesNames | App_Client_birdnet/APP_CLIENT.py:133-138 | every name ParseLines yields has the shape ParseEntry gives |
| FileList.SplitLine | App_Client_birdnet/APP_CLIENT.py:135-137 | the loop body computes ParseEntry of the line |
| FileList.ParseLines | App_Client_birdnet/APP_CLIENT.py:133-138 | at most one pair per line; a line is skipped when `FileList.Blank` (its strip is empty) |
| FileList.ParseLinesStep | App_Client_birdnet/APP_CLIENT.py:133-138 | a blank line contributes nothing and any other line its pair, in front of the rest |
| FileList.ParseLinesAppend | App_Client_birdnet/APP_CLIENT.py:131-138 | the pairs of two runs of lines are the pairs of each, in order |
| FileList.CollectEntries | App_Client_birdnet/APP_CLIENT.py:132-139 | the loop returns ParseLines of the lines |
| FileList.GetFileList | App_Client_birdnet/APP_CLIENT.py:126-145 | sends GET /list (`Http.ListRequest`, no parameters); on 200 returns ParseFileList of the body with no message; otherwise the empty list and an error |
| Http.SyncRequest | App_Client_birdnet/APP_CLIENT.py:223-224 | GET /set_time whose only parameter `time` is str(now), a URL-safe text |
| Http.RenameRequest | App_Client_birdnet/APP_CLIENT.py:333 | GET /rename with exactly `file` (the old name) and `new_name`, and neither `old` nor `new` |
| Http.IntText | App_Client_birdnet/APP_CLIENT.py:223-224 | the sync time parameter is an optional '-' followed by digits |
| Http.IntTextValue | App_Client_birdnet/APP_CLIENT.py:223-224 | the digits spell the absolute value of the time |
| Digits.Decimal | App_Client_birdnet/APP_CLIENT.py:224 | str(n) is one or more digits with no leading zero |
| Digits.DecimalRoundTrip | App_Client_birdnet/APP_CLIENT.py:224 | the digits of str(n) denote n |
| PyStr.FindFrom | App_Client_birdnet/APP_CLIENT.py:135 | the first occurrence at or after i, or None when there is none |
| PyStr.Find | App_Client_birdnet/APP_CLIENT.py:135 | found exactly when the separator occurs, and then at its first occurrence |
| PyStr.FindFirst | App_Client_birdnet/APP_CLIENT.py:135 | an occurrence with none before it is what Find returns |
| PyStr.Split | App_Client_birdnet/APP_CLIENT.py:135 | split returns at least one piece |
| PyStr.SplitJoin | App_Client_birdnet/APP_CLIENT.py:135 | joining the pieces with the separator gives the string back |
| PyStr.SplitPartsClean | App_Client_birdnet/APP_CLIENT.py:135 | no piece contains the separator |
| PyStr.SplitNone | App_Client_birdnet/APP_CLIENT.py:131 | a string without the separator is its only piece |
| PyStr.SplitAt | App_Client_birdnet/APP_CLIENT.py:135 | a text whose first separator follows a splits into a and the pieces of the rest |
| PyStr.SplitChar | App_Client_birdnet/APP_CLIENT.py:131 | a split at a character puts the text before its first occurrence first, then the pieces of the rest |
| PyStr.FindDash | App_Client_birdnet/APP_CLIENT.py:135 | in a + " - " + b the first " - " is right after a when a has none and does not end in " -" |
| PyStr.FindDashEarly | App_Client_birdnet/APP_CLIENT.py:135 | when a ends in " -" the first " - " starts inside a |
| PyStr.IsSpace | App_Client_birdnet/APP_CLIENT.py:136 | on ASCII, exactly space, \t to \r and the separators 0x1C to 0x1F are whitespace, as in Python's str.isspace |
| PyStr.Strip | App_Client_birdnet/APP_CLIENT.py:136 | `strip()` returns a text no longer than its argument, with no surrounding whitespace |
| PyStr.TrimLeft | App_Client_birdnet/APP_CLIENT.py:136 | removing leading whitespace keeps a suffix that starts with non-whitespace |
| PyStr.TrimRight | App_Client_birdnet/APP_CLIENT.py:136 | removing trailing whitespace keeps a prefix that ends with non-whitespace |
| PyStr.TrimLeftSpaces | App_Client_birdnet/APP_CLIENT.py:136 | only whitespace is removed on the left |
| PyStr.TrimRightSpaces | App_Client_birdnet/APP_CLIENT.py:136 | only whitespace is removed on the right |
| PyStr.StripShape | App_Client_birdnet/APP_CLIENT.py:136 | strip returns a piece of its argument with no surrounding whitespace |
| PyStr.StripEmpty | App_Client_birdnet/APP_CLIENT.py:134 | `file_info.strip()` is empty exactly for an all-whitespace line |
| PyStr.StripStripped | App_Client_birdnet/APP_CLIENT.py:136 | strip leaves a text without surrounding whitespace unchanged |
| PyStr.StripIdempotent | App_Client_birdnet/APP_CLIENT.py:136 | stripping twice is stripping once |
| PyStr.StripInfixClean | App_Client_birdnet/APP_CLIENT.py:136 | stripping cannot create an occurrence of a separator |
| ControlPanel.DeviceRows | App_Client_birdnet/APP_CLIENT.py:241-243 | one `f"{name} ({ip})"` row per registry item, in order |
| ControlPanel.FileRows | App_Client_birdnet/APP_CLIENT.py:284-286 | one `f"{name} - {size}"` row per file, in order |
| ControlPanel.FillDeviceRows | App_Client_birdnet/APP_CLIENT.py:241-243 | the insert loop produces DeviceRows |
| ControlPanel.FillFileRows | App_Client_birdnet/APP_CLIENT.py:284-286 | the insert loop produces FileRows |
| ControlPanel.RefreshedRows | App_Client_birdnet/APP_CLIENT.py:283-286 | a failed list request leaves the files listbox empty |
| ControlPanel.RefreshNotices | App_Client_birdnet/APP_CLIENT.py:140-145 | the file list shows no message exactly on 200 |
| ControlPanel.Panel.constructor | App_Client_birdnet/APP_CLIENT.py:14-19 | not recording, no start time, timer off, nothing selected, empty registry and listboxes |
| ControlPanel.Panel.StartRecording | App_Client_birdnet/APP_CLIENT.py:94-107 | sends /start (`Http.StartRequest`); on 200 the start time is now and the timer runs, otherwise the session is unchanged; one info or error box (`Http.Report`: info exactly on 200) |
| ControlPanel.Panel.StopRecording | App_Client_birdnet/APP_CLIENT.py:109-124 | sends /stop (`Http.StopRequest`); on 200 with a truthy start time (`ControlPanel.Truthy`) the session ends with an info box, a start time of None or 0.0 changes nothing and shows nothing, and any other outcome shows an error |
| ControlPanel.Panel.SelectEsp | App_Client_birdnet/APP_CLIENT.py:234-243 | the registry becomes the scan result, even when empty; an empty result warns and keeps the listbox, otherwise the listbox holds DeviceRows of the registry |
| ControlPanel.Panel.OnEspSelect | App_Client_birdnet/APP_CLIENT.py:245-252 | a selected row's address text becomes the selection and is sent the client's clock; a row without '(' raises uncaught; no selection changes nothing |
| ControlPanel.Panel.StartCommand | App_Client_birdnet/APP_CLIENT.py:257-263 | without a selection only a warning; otherwise is_recording is set whatever the outcome, and then start_recording |
| ControlPanel.Panel.StopCommand | App_Client_birdnet/APP_CLIENT.py:265-271 | without a selection only a warning; otherwise stop_recording, and then is_recording is cleared whatever the outcome |
| ControlPanel.Panel.ResetCommand | App_Client_birdnet/APP_CLIENT.py:273-277 | without a selection only a warning; otherwise /reset (`Http.ResetRequest`) and its report (`Http.Report`) |
| ControlPanel.Panel.SyncCommand | App_Client_birdnet/APP_CLIENT.py:346-350 | without a selection only a warning; otherwise /set_time with the client's clock and its report |
| ControlPanel.RefreshFiles | App_Client_birdnet/APP_CLIENT.py:283-286 | get_file_list sends /list (`Http.ListRequest`); the rows are the parsed list's entries on 200 and empty otherwise, with an error box exactly off 200 |
| ControlPanel.Panel.GetFilesCommand | App_Client_birdnet/APP_CLIENT.py:279-286 | without a selection (`not selected_esp`, `Panel.NoneSelected`) only a warning; otherwise /list, and the files listbox is refilled from the parsed list (empty on failure) |
| ControlPanel.Panel.DownloadCommand | App_Client_birdnet/APP_CLIENT.py:288-298 | warns without a selected device or row; a non-empty name read from the row is downloaded; an empty name fetches the list (the all-files branch) |
| ControlPanel.Panel.DeleteFileCommand | App_Client_birdnet/APP_CLIENT.py:300-319 | warns without a selected device or row; sends /delete for the row's name; on 200 an info box and a refresh of the files listbox, otherwise an error and the listbox is kept |
| ControlPanel.Panel.RenameFileCommand | App_Client_birdnet/APP_CLIENT.py:321-344 | warns without a selected device or row; a cancelled or empty answer does nothing; else sends /rename with file and new_name, and a 200 refreshes the files listbox |
| Interop.ListingRoundTrip | App_Client_birdnet/APP_CLIENT.py:131-138 | the client reads the firmware's listing back as one (name, size + " MB") pair per entry, in order, when every entry is clean |
| Interop.LineParse | App_Client_birdnet/APP_CLIENT.py:134-137 | a clean listing line is not blank and parses to its name and its size with the unit |
| Interop.LineFields | App_Client_birdnet/APP_CLIENT.py:135 | a clean listing line splits at " - " into exactly the name and the size with the unit |
| Interop.UnitClean | Firmware_ESP/SC/src/main.cpp:423 | appending " MB" to a size text without " - " and " -" at its end adds no " - " |
| Interop.NameEndingInDashIsCut | App_Client_birdnet/APP_CLIENT.py:135-136 | a listed name ending in " -" is read back as a different, shorter name |
| Interop.ClientRenameRejected | App_Client_birdnet/APP_CLIENT.py:333 | the firmware answers a client rename of URL-safe names with 400 and renames nothing |
| Interop.ClientDeleteAccepted | Firmware_ESP/SC/src/main.cpp:203-211 | the firmware answers a client delete (`Http.DeleteRequest`, `file=` the name) of a URL-safe name with 200 and removes "/" + the name |
| Interop.ClientDownloadAnswered | Firmware_ESP/SC/src/main.cpp:161-189 | a client download (`Http.DownloadRequest`, `file=` the name) of a URL-safe name is never answered 400, and is answered 200 exactly for a regular file |
| Interop.ClientSyncAccepted | Firmware_ESP/SC/src/main.cpp:191-201 | a client sync is answered 200 and sets the clock from str(now) |
| Interop.ListedFileDeleteTarget | App_Client_birdnet/APP_CLIENT.py:300-308 | deleting a clean, URL-safe listed file from the listbox removes "/" + its listed name on the device |
| Interop.FirstAddressNoParen | App_Client_birdnet/APP_CLIENT.py:31 | the text of a discovered address (`Entries.IpText` of FirstAddress) has no '(' |
| Interop.ScanTextsHaveNoParen | App_Client_birdnet/APP_CLIENT.py:37-43 | no address text in a scan result has a '(' |
| Interop.SelectedRowAddress | App_Client_birdnet/APP_CLIENT.py:241-251 | selecting row k of the device listbox selects device k's address text, when its name has no '(' |

## Left out

- Floating point: the normalisation pass of `recordAudio` (main.cpp lines 361-367) and `String(fileSizeMB, 2)` in `listFiles`. A directory entry's size is given as its already formatted text.
- Recorder.Device.RecordAudio: states nothing about the buffer's final contents, because the float normalisation is left out. The clamp stage before it is stated by Samples.AmplifyInPlace.
- Audio content: the recording file keeps its header and a count of the audio bytes, not the bytes themselves. So a header rewrite is modelled as replacing the first 44 bytes, with no seek.
- The clock: `time`, the +25200 s (UTC+7) shift and `localtime_r` are not modelled. The calendar fields are an input to the path.
- `String.toInt` and `settimeofday`: the `/set_time` effect carries the time text.
- `millis()` and `i2s_read` are inputs of `Loop`. Whether `SD.open` succeeds is an input of `StartRecording`. What `SD.open`/`isDirectory` report and whether `SD.rename` succeeds are inputs of the route functions.
- `WiFi.setSleep`, `Serial` logging and the LED pin writes: the LED is modelled by the level last written (`ledHigh`).
- `setup()`: the WiFi connect loop, mDNS, SD mount, I2S driver install and handler registration.
- The handlers `/`, `/start`, `/stop`, `/list`, `/reset` and `/update`.
  - `/start` and `/stop` call the modelled start and stop and always answer 200.
  - `/list` answers 200 with the modelled listing.
  - `/reset` restarts the chip.
  - `/update` (over-the-air firmware update) has no parameter logic.
- Chunked streaming of `/download`: it is the `Stream` effect.
- The commented-out earlier `recordAudio` (main.cpp lines 307-329).
- Zeroconf browsing, the 5 s sleep and `remove_service` are not modelled. A scan is the sequence of `add_service` announcements the listener receives. IPv6 addresses are not modelled.
- WavHeader.DataPart: `fileSize - 44` on a C++ `int` overflows, which is undefined behaviour, when fileSize is within 44 of INT32_MIN (after about 2^31 counted bytes); the model takes the wrapped value modulo 2^32.
- HTTP transport: a URL is modelled as host, path and a map of query parameters, the parameters the handler sees. That holds only for values in `Http.UrlSafe`. A name holding '&', '#', '?', '%' or '+' changes, cuts or re-splits the unencoded query; such names are not modelled, and the lemmas about client requests require URL-safe names. Duplicate parameters are not modelled either.
- Firmware concurrency: the `/start` and `/stop` handlers run on the web server's task while `loop()` runs `recordAudio` on the main task, sharing `isRecording`, `recordingFile` and `totalSamples` without a lock. Each handler call and each `loop()` pass is modelled as one atomic step; their interleavings (a write landing between the header seek and rewrite, or a count added after the final header) are not modelled.
- Threads: `update_timer` and the timer label, the download threads, and `download_single_file`'s streamed write and speed display.
- ControlPanel.Panel.DownloadCommand: the all-files branch is modelled up to its `/list` request. The downloads it starts interpolate a tuple into the URL, which Python's repr decides.
- tkinter layout, dialogs and message texts: a message box is only its kind (`Http.Notice`). The rename dialog's answer is an input.
- `merge_csv_files`, `run_analysis`/`run_analysis_thread`, `select_download_folder` and `exit_command`: pandas, subprocess and file dialogs.
