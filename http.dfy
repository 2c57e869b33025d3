/**
 * The client's side of HTTP: the GET requests it builds with f-strings,
 * the outcome of `requests.get` (a response or a RequestException), and
 * the message boxes it shows.
 */
module Http {
  import Digits

  /**
   * `requests.get(f"http://{host}{path}?k=v&...")`, with the query string
   * already split into its parameters.
   */
  datatype Request = Get(host: string, path: string, query: map<string, string>)

  /** What `requests.get` produced: a response, or a RequestException. */
  datatype Outcome = Response(status: int, text: string) | RequestFailed

  /** A tkinter message box, or an exception the callback does not catch. */
  datatype Notice = Info | Warning | Error | Uncaught

  /** `response.status_code == 200`, reached without an exception. */
  predicate Ok(o: Outcome) {
    o.Response? && o.status == 200
  }

  /** The message box of a call that reports success on 200 and an error otherwise. */
  function Report(o: Outcome): Notice
  {
    if Ok(o) then Info else Error
  }

  /** `str(n)` for a Python int. */
  function IntText(n: int): (s: string)
    ensures n < 0 ==> |s| >= 2 && s[0] == '-' && Digits.AllDigits(s[1..])
    ensures n >= 0 ==> |s| >= 1 && Digits.AllDigits(s)
  {
    if n < 0 then "-" + Digits.Decimal(-n) else Digits.Decimal(n)
  }

  /** The digits of str(n) spell |n|. */
  lemma IntTextValue(n: int)
    ensures n < 0 ==> Digits.Value(IntText(n)[1..]) == -n
    ensures n >= 0 ==> Digits.Value(IntText(n)) == n
  {
    if n < 0 {
      NegativeDigits(n);
    } else {
      Digits.DecimalRoundTrip(n);
    }
  }

  /** After its sign, str(n) of a negative n is the decimal text of -n. */
  lemma NegativeDigits(n: int)
    requires n < 0
    ensures Digits.Value(IntText(n)[1..]) == -n
  {
    var d := Digits.Decimal(-n);
    assert IntText(n) == "-" + d;
    assert ("-" + d)[1..] == d;
    Digits.DecimalRoundTrip(-n);
  }

  /**
   * A query value the f-string URLs carry to the handler as it is: it has
   * no '&' or '#' that would end it, no '?', and no '%' or '+' that the
   * server would decode. A name outside this set is not modelled.
   */
  predicate UrlSafe(s: string) {
    forall i :: 0 <= i < |s| ==> s[i] !in "&#?%+"
  }

  /** start_recording's `/start`. */
  function StartRequest(ip: string): Request
  {
    Get(ip, "/start", map[])
  }

  /** stop_recording's `/stop`. */
  function StopRequest(ip: string): Request
  {
    Get(ip, "/stop", map[])
  }

  /** get_file_list's `/list`. */
  function ListRequest(ip: string): Request
  {
    Get(ip, "/list", map[])
  }

  /** reset_esp's `/reset`. */
  function ResetRequest(ip: string): Request
  {
    Get(ip, "/reset", map[])
  }

  /** sync_time's `/set_time?time={current_time}`: the one parameter is str(now). */
  function SyncRequest(ip: string, now: int): (r: Request)
    ensures r.host == ip && r.path == "/set_time"
    ensures r.query.Keys == {"time"} && r.query["time"] == IntText(now) && UrlSafe(r.query["time"])
  {
    var text := IntText(now);
    assert forall i :: 0 <= i < |text| ==> text[i] == '-' || Digits.IsDigit(text[i]);
    Get(ip, "/set_time", map["time" := text])
  }

  /** download_file's `/download?file={filename}`. */
  function DownloadRequest(ip: string, filename: string): Request
  {
    Get(ip, "/download", map["file" := filename])
  }

  /** delete_file_command's `/delete?file={filename}`. */
  function DeleteRequest(ip: string, filename: string): Request
  {
    Get(ip, "/delete", map["file" := filename])
  }

  /**
   * rename_file_command's `/rename?file={old_filename}&new_name={new_filename}`:
   * it carries `file` and `new_name`, and neither `old` nor `new`.
   */
  function RenameRequest(ip: string, oldName: string, newName: string): (r: Request)
    ensures r.host == ip && r.path == "/rename"
    ensures r.query.Keys == {"file", "new_name"} && r.query["file"] == oldName && r.query["new_name"] == newName
    ensures "old" !in r.query && "new" !in r.query
  {
    Get(ip, "/rename", map["file" := oldName, "new_name" := newName])
  }
}
