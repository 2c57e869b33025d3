/**
 * The client's module-level state and the commands behind its buttons and
 * listboxes: the recording session flags (is_recording, start_time,
 * timer_running), the selected device, the device registry, and the
 * contents of the two listboxes. Every HTTP call is an input (its outcome)
 * and an output (the request sent); message boxes are outputs.
 */
module ControlPanel {
  import opened Wrappers
  import opened Http
  import PyDict
  import Entries
  import FileList
  import Discovery

  /** A listbox's `curselection()`: nothing, or the index of its first selected row. */
  type Selection = Option<nat>

  /** `if start_time:` on a value of time.time() or None. */
  predicate Truthy(t: Option<real>)
  {
    t.Some? && t.value != 0.0
  }

  /** The rows select_esp puts in the device listbox, one per registry item. */
  function DeviceRows(items: seq<(string, Option<string>)>): (rows: seq<string>)
    ensures |rows| == |items|
    ensures forall k :: 0 <= k < |rows| ==> rows[k] == Entries.DeviceEntry(items[k].0, items[k].1)
  {
    seq(|items|, k requires 0 <= k < |items| => Entries.DeviceEntry(items[k].0, items[k].1))
  }

  /** The rows get_files_command puts in the files listbox, one per (name, size) pair. */
  function FileRows(files: seq<(string, string)>): (rows: seq<string>)
    ensures |rows| == |files|
    ensures forall k :: 0 <= k < |rows| ==> rows[k] == Entries.FileEntry(files[k].0, files[k].1)
  {
    seq(|files|, k requires 0 <= k < |files| => Entries.FileEntry(files[k].0, files[k].1))
  }

  /** The files listbox after get_files_command: the parsed list on 200, else empty. */
  function RefreshedRows(outcome: Outcome): (rows: seq<string>)
    ensures !Ok(outcome) ==> rows == []
  {
    if Ok(outcome) then FileRows(FileList.ParseFileList(outcome.text)) else []
  }

  /** The message boxes get_file_list shows. */
  function RefreshNotices(outcome: Outcome): (notices: seq<Notice>)
    ensures notices == [] <==> Ok(outcome)
  {
    if Ok(outcome) then [] else [Error]
  }

  /** get_file_list on ip and the refill of the files listbox from its result. */
  method RefreshFiles(ip: string, outcome: Outcome) returns (rows: seq<string>, sent: seq<Request>, notices: seq<Notice>)
    ensures sent == [ListRequest(ip)] && rows == RefreshedRows(outcome) && notices == RefreshNotices(outcome)
  {
    var files;
    files, sent, notices := FileList.GetFileList(ip, outcome);
    rows := FillFileRows(files);
  }

  /** `listbox.delete(0, END)` and one `insert(END, ...)` per device. */
  method FillDeviceRows(items: seq<(string, Option<string>)>) returns (rows: seq<string>)
    ensures rows == DeviceRows(items)
  {
    rows := [];
    var i := 0;
    while i < |items|
      invariant 0 <= i <= |items|
      invariant |rows| == i
      invariant forall k :: 0 <= k < i ==> rows[k] == Entries.DeviceEntry(items[k].0, items[k].1)
    {
      var (name, ip) := items[i];
      rows := rows + [Entries.DeviceEntry(name, ip)];
      i := i + 1;
    }
  }

  /** `listbox.delete(0, END)` and one `insert(END, ...)` per file. */
  method FillFileRows(files: seq<(string, string)>) returns (rows: seq<string>)
    ensures rows == FileRows(files)
  {
    rows := [];
    var i := 0;
    while i < |files|
      invariant 0 <= i <= |files|
      invariant |rows| == i
      invariant forall k :: 0 <= k < i ==> rows[k] == Entries.FileEntry(files[k].0, files[k].1)
    {
      var (fileName, fileSize) := files[i];
      rows := rows + [Entries.FileEntry(fileName, fileSize)];
      i := i + 1;
    }
  }

  /** The client's globals and the two listboxes. */
  class Panel {
    var isRecording: bool
    var startTime: Option<real>
    var timerRunning: bool
    var selectedEsp: Option<string>
    var espList: Discovery.Registry
    var espListbox: seq<string>
    var filesListbox: seq<string>

    /** The timer runs exactly while a start time is held, and the registry is a well-formed dict. */
    ghost predicate Valid()
      reads this
    {
      (timerRunning <==> startTime.Some?) && espList.Valid()
    }

    /** `not selected_esp`: no device, or the empty string. */
    predicate NoneSelected()
      reads this
    {
      selectedEsp.None? || selectedEsp.value == ""
    }

    /** The session flags are as they were. */
    twostate predicate SessionUnchanged()
      reads this
    {
      isRecording == old(isRecording) && startTime == old(startTime) && timerRunning == old(timerRunning)
    }

    /** The selection, the registry and both listboxes are as they were. */
    twostate predicate ViewUnchanged()
      reads this
    {
      && selectedEsp == old(selectedEsp) && espList == old(espList)
      && espListbox == old(espListbox) && filesListbox == old(filesListbox)
    }

    /** The module's initial globals and empty listboxes. */
    constructor ()
      ensures Valid()
      ensures !isRecording && startTime == None && !timerRunning && selectedEsp == None
      ensures espList == PyDict.Empty() && espListbox == [] && filesListbox == []
    {
      isRecording := false;
      startTime := None;
      timerRunning := false;
      selectedEsp := None;
      espList := PyDict.Empty();
      espListbox := [];
      filesListbox := [];
    }

    /**
     * start_recording: GET /start; on 200 the session starts at `now` (the
     * value of time.time()) and the timer runs. The timer thread is not
     * modelled.
     */
    method StartRecording(ip: string, outcome: Outcome, now: real) returns (sent: seq<Request>, notices: seq<Notice>)
      requires Valid()
      modifies this
      ensures Valid() && ViewUnchanged() && isRecording == old(isRecording)
      ensures sent == [StartRequest(ip)] && notices == [Report(outcome)]
      ensures Ok(outcome) ==> startTime == Some(now) && timerRunning
      ensures !Ok(outcome) ==> startTime == old(startTime) && timerRunning == old(timerRunning)
    {
      sent := [StartRequest(ip)];
      if Ok(outcome) {
        startTime := Some(now);
        timerRunning := true;
        notices := [Info];
      } else {
        notices := [Error];
      }
    }

    /**
     * stop_recording: GET /stop; on 200 a truthy start time ends the
     * session (the timer stops, the start time is dropped); a start time of
     * None, or 0.0, leaves everything as it was and shows nothing.
     */
    method StopRecording(ip: string, outcome: Outcome) returns (sent: seq<Request>, notices: seq<Notice>)
      requires Valid()
      modifies this
      ensures Valid() && ViewUnchanged() && isRecording == old(isRecording)
      ensures sent == [StopRequest(ip)]
      ensures Ok(outcome) && Truthy(old(startTime)) ==> startTime == None && !timerRunning && notices == [Info]
      ensures Ok(outcome) && !Truthy(old(startTime)) ==>
        startTime == old(startTime) && timerRunning == old(timerRunning) && notices == []
      ensures !Ok(outcome) ==> startTime == old(startTime) && timerRunning == old(timerRunning) && notices == [Error]
    {
      sent := [StopRequest(ip)];
      notices := [];
      if Ok(outcome) {
        if Truthy(startTime) {
          startTime := None;
          timerRunning := false;
          notices := [Info];
        }
      } else {
        notices := [Error];
      }
    }

    /**
     * select_esp, run by scan_command: the registry becomes the scan's
     * result even when that is empty; an empty result only warns and leaves
     * the device listbox as it was, else the listbox shows one row per
     * device in discovery order.
     */
    method SelectEsp(announcements: seq<Discovery.Announcement>) returns (notices: seq<Notice>)
      requires Valid()
      modifies this
      ensures Valid() && SessionUnchanged()
      ensures selectedEsp == old(selectedEsp) && filesListbox == old(filesListbox)
      ensures espList == Discovery.ScanResult(announcements)
      ensures espList.IsEmpty() ==> espListbox == old(espListbox) && notices == [Warning]
      ensures !espList.IsEmpty() ==> espListbox == DeviceRows(PyDict.Items(espList)) && notices == []
    {
      espList := Discovery.ScanEsp(announcements);
      if espList.IsEmpty() {
        return [Warning];
      }
      espListbox := FillDeviceRows(PyDict.Items(espList));
      notices := [];
    }

    /**
     * on_esp_select: the address is read back from the selected row's text
     * and becomes the selected device, and the device's clock is set to
     * `now` (int(time.mktime(...))). A row without '(' makes the parse raise
     * IndexError, which the callback does not catch.
     */
    method OnEspSelect(selection: Selection, outcome: Outcome, now: int) returns (sent: seq<Request>, notices: seq<Notice>)
      requires Valid()
      requires selection.Some? ==> selection.value < |espListbox|
      modifies this
      ensures Valid() && SessionUnchanged()
      ensures espList == old(espList) && espListbox == old(espListbox) && filesListbox == old(filesListbox)
      ensures selection.None? ==> selectedEsp == old(selectedEsp) && sent == [] && notices == []
      ensures selection.Some? ==>
        var parsed := Entries.ParseDeviceEntry(espListbox[selection.value]);
        && (parsed.None? ==> selectedEsp == old(selectedEsp) && sent == [] && notices == [Uncaught])
        && (parsed.Some? ==> selectedEsp == parsed && sent == [SyncRequest(parsed.value, now)] && notices == [Report(outcome)])
    {
      sent, notices := [], [];
      if selection.Some? {
        var selectedEspNameIp := espListbox[selection.value];
        var parsed := Entries.ParseDeviceEntry(selectedEspNameIp);
        if parsed.None? {
          return [], [Uncaught];
        }
        selectedEsp := parsed;
        sent, notices := [SyncRequest(parsed.value, now)], [Report(outcome)];
      }
    }

    /** start_command: is_recording is set before the request, whatever its outcome. */
    method StartCommand(outcome: Outcome, now: real) returns (sent: seq<Request>, notices: seq<Notice>)
      requires Valid()
      modifies this
      ensures Valid() && ViewUnchanged()
      ensures old(NoneSelected()) ==> unchanged(this) && sent == [] && notices == [Warning]
      ensures !old(NoneSelected()) ==>
        && isRecording
        && sent == [StartRequest(selectedEsp.value)] && notices == [Report(outcome)]
        && (Ok(outcome) ==> startTime == Some(now) && timerRunning)
        && (!Ok(outcome) ==> startTime == old(startTime) && timerRunning == old(timerRunning))
    {
      if NoneSelected() {
        return [], [Warning];
      }
      isRecording := true;
      sent, notices := StartRecording(selectedEsp.value, outcome, now);
    }

    /** stop_command: is_recording is cleared after the request, whatever its outcome. */
    method StopCommand(outcome: Outcome) returns (sent: seq<Request>, notices: seq<Notice>)
      requires Valid()
      modifies this
      ensures Valid() && ViewUnchanged()
      ensures old(NoneSelected()) ==> unchanged(this) && sent == [] && notices == [Warning]
      ensures !old(NoneSelected()) ==>
        && !isRecording && sent == [StopRequest(selectedEsp.value)]
        && (Ok(outcome) && Truthy(old(startTime)) ==> startTime == None && !timerRunning && notices == [Info])
        && (Ok(outcome) && !Truthy(old(startTime)) ==>
              startTime == old(startTime) && timerRunning == old(timerRunning) && notices == [])
        && (!Ok(outcome) ==> startTime == old(startTime) && timerRunning == old(timerRunning) && notices == [Error])
    {
      if NoneSelected() {
        return [], [Warning];
      }
      sent, notices := StopRecording(selectedEsp.value, outcome);
      isRecording := false;
    }

    /** reset_command: GET /reset on the selected device. */
    method ResetCommand(outcome: Outcome) returns (sent: seq<Request>, notices: seq<Notice>)
      ensures NoneSelected() ==> sent == [] && notices == [Warning]
      ensures !NoneSelected() ==> sent == [ResetRequest(selectedEsp.value)] && notices == [Report(outcome)]
    {
      if NoneSelected() {
        return [], [Warning];
      }
      sent, notices := [ResetRequest(selectedEsp.value)], [Report(outcome)];
    }

    /** sync_command: sync_time on the selected device with the client's clock `now`. */
    method SyncCommand(outcome: Outcome, now: int) returns (sent: seq<Request>, notices: seq<Notice>)
      ensures NoneSelected() ==> sent == [] && notices == [Warning]
      ensures !NoneSelected() ==> sent == [SyncRequest(selectedEsp.value, now)] && notices == [Report(outcome)]
    {
      if NoneSelected() {
        return [], [Warning];
      }
      sent, notices := [SyncRequest(selectedEsp.value, now)], [Report(outcome)];
    }

    /**
     * get_files_command: the files listbox is cleared and refilled from
     * get_file_list, so a failed request leaves it empty.
     */
    method GetFilesCommand(outcome: Outcome) returns (sent: seq<Request>, notices: seq<Notice>)
      requires Valid()
      modifies this
      ensures Valid() && SessionUnchanged()
      ensures selectedEsp == old(selectedEsp) && espList == old(espList) && espListbox == old(espListbox)
      ensures old(NoneSelected()) ==> unchanged(this) && sent == [] && notices == [Warning]
      ensures !old(NoneSelected()) ==>
        sent == [ListRequest(selectedEsp.value)] && filesListbox == RefreshedRows(outcome) && notices == RefreshNotices(outcome)
    {
      if NoneSelected() {
        return [], [Warning];
      }
      var rows;
      rows, sent, notices := RefreshFiles(selectedEsp.value, outcome);
      filesListbox := rows;
    }

    /**
     * download_command: the selected row's file name starts a download of
     * that file; an empty name falls through to download_file's all-files
     * branch, which fetches the list first.
     */
    method DownloadCommand(selection: Selection, listOutcome: Outcome) returns (sent: seq<Request>, notices: seq<Notice>)
      requires selection.Some? ==> selection.value < |filesListbox|
      ensures NoneSelected() ==> sent == [] && notices == [Warning]
      ensures !NoneSelected() && selection.None? ==> sent == [] && notices == [Warning]
      ensures !NoneSelected() && selection.Some? ==>
        var filename := Entries.ParseFileEntry(filesListbox[selection.value]);
        && (filename != "" ==> sent == [DownloadRequest(selectedEsp.value, filename)] && notices == [])
        && (filename == "" ==> sent == [ListRequest(selectedEsp.value)] && notices == if Ok(listOutcome) then [] else [Error])
    {
      if NoneSelected() {
        return [], [Warning];
      }
      if selection.None? {
        return [], [Warning];
      }
      var selectedFile := filesListbox[selection.value];
      var filename := Entries.ParseFileEntry(selectedFile);
      if filename != "" {
        sent, notices := [DownloadRequest(selectedEsp.value, filename)], [];
      } else {
        var files;
        files, sent, notices := FileList.GetFileList(selectedEsp.value, listOutcome);
      }
    }

    /**
     * delete_file_command: GET /delete for the selected row's file name; on
     * 200 the files listbox is refreshed with a second request.
     */
    method DeleteFileCommand(selection: Selection, outcome: Outcome, refresh: Outcome)
      returns (sent: seq<Request>, notices: seq<Notice>)
      requires Valid()
      requires selection.Some? ==> selection.value < |filesListbox|
      modifies this
      ensures Valid() && SessionUnchanged()
      ensures selectedEsp == old(selectedEsp) && espList == old(espList) && espListbox == old(espListbox)
      ensures old(NoneSelected()) || selection.None? ==> unchanged(this) && sent == [] && notices == [Warning]
      ensures !old(NoneSelected()) && selection.Some? ==>
        var ip := selectedEsp.value;
        var filename := Entries.ParseFileEntry(old(filesListbox)[selection.value]);
        && (!Ok(outcome) ==> filesListbox == old(filesListbox) && sent == [DeleteRequest(ip, filename)] && notices == [Error])
        && (Ok(outcome) ==>
              && sent == [DeleteRequest(ip, filename), ListRequest(ip)]
              && filesListbox == RefreshedRows(refresh) && notices == [Info] + RefreshNotices(refresh))
    {
      if NoneSelected() {
        return [], [Warning];
      }
      if selection.None? {
        return [], [Warning];
      }
      var selectedFile := filesListbox[selection.value];
      var filename := Entries.ParseFileEntry(selectedFile);
      sent := [DeleteRequest(selectedEsp.value, filename)];
      if Ok(outcome) {
        var refreshSent, refreshNotices := GetFilesCommand(refresh);
        sent, notices := sent + refreshSent, [Info] + refreshNotices;
      } else {
        notices := [Error];
      }
    }

    /**
     * rename_file_command: asks for a new name (None when the dialog is
     * cancelled); a non-empty answer sends GET /rename with the parameters
     * `file` and `new_name`, and a 200 refreshes the files listbox.
     */
    method RenameFileCommand(selection: Selection, newName: Option<string>, outcome: Outcome, refresh: Outcome)
      returns (sent: seq<Request>, notices: seq<Notice>)
      requires Valid()
      requires selection.Some? ==> selection.value < |filesListbox|
      modifies this
      ensures Valid() && SessionUnchanged()
      ensures selectedEsp == old(selectedEsp) && espList == old(espList) && espListbox == old(espListbox)
      ensures old(NoneSelected()) || selection.None? ==> unchanged(this) && sent == [] && notices == [Warning]
      ensures !old(NoneSelected()) && selection.Some? && (newName.None? || newName.value == "") ==>
        unchanged(this) && sent == [] && notices == []
      ensures !old(NoneSelected()) && selection.Some? && newName.Some? && newName.value != "" ==>
        var ip := selectedEsp.value;
        var oldFilename := Entries.ParseFileEntry(old(filesListbox)[selection.value]);
        && (!Ok(outcome) ==> filesListbox == old(filesListbox) && sent == [RenameRequest(ip, oldFilename, newName.value)] && notices == [Error])
        && (Ok(outcome) ==>
              && sent == [RenameRequest(ip, oldFilename, newName.value), ListRequest(ip)]
              && filesListbox == RefreshedRows(refresh) && notices == [Info] + RefreshNotices(refresh))
    {
      if NoneSelected() {
        return [], [Warning];
      }
      if selection.None? {
        return [], [Warning];
      }
      var selectedFile := filesListbox[selection.value];
      var oldFilename := Entries.ParseFileEntry(selectedFile);
      if newName.None? || newName.value == "" {
        return [], [];
      }
      sent := [RenameRequest(selectedEsp.value, oldFilename, newName.value)];
      if Ok(outcome) {
        var refreshSent, refreshNotices := GetFilesCommand(refresh);
        sent, notices := sent + refreshSent, [Info] + refreshNotices;
      } else {
        notices := [Error];
      }
    }
  }
}
