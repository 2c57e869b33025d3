/**
 * The parameter checks of the firmware's HTTP handlers /download,
 * /set_time, /delete and /rename. A request's query parameters are a map
 * from name to value (hasParam is membership, getParam(..)->value() the
 * lookup); the SD card is given by what SD.open reports for a path and by
 * whether SD.rename succeeds.
 */
module Routes {
  /** What `SD.open(path, FILE_READ)` yields: no file, a directory or a regular file. */
  datatype Lookup = Missing | Directory | Regular

  /** What a handler does besides answering. */
  datatype Effect =
    | NoEffect
    /** Stream the file at this path as a chunked audio/wav response. */
    | Stream(path: string)
    /** settimeofday with the seconds parsed from this text by String.toInt. */
    | SetClock(timeText: string)
    /** SD.remove on this path; its result is only logged. */
    | Remove(path: string)
    /** SD.rename from the first path to the second. */
    | Rename(from: string, to: string)

  datatype Reply = Reply(status: int, body: string, effect: Effect)

  type Params = map<string, string>

  /** The handler of GET /download. */
  function Download(params: Params, lookup: string -> Lookup): (r: Reply)
    ensures r.status == 400 <==> "file" !in params
    ensures r.status == 404 <==> "file" in params && lookup("/" + params["file"]) != Regular
    ensures r.status == 200 <==> "file" in params && lookup("/" + params["file"]) == Regular
    ensures r.status == 200 ==> r.effect == Stream("/" + params["file"])
    ensures r.status != 200 ==> r.effect == NoEffect
  {
    if "file" in params then
      var path := "/" + params["file"];
      match lookup(path)
      case Missing => Reply(404, "File not found", NoEffect)
      case Directory => Reply(404, "File not found", NoEffect)
      case Regular => Reply(200, "", Stream(path))
    else
      Reply(400, "File parameter missing", NoEffect)
  }

  /** The handler of GET /set_time. */
  function SetTime(params: Params): (r: Reply)
    ensures r.status == 400 <==> "time" !in params
    ensures r.status == 200 <==> "time" in params
    ensures r.status == 200 ==> r.effect == SetClock(params["time"])
    ensures r.status == 400 ==> r.effect == NoEffect
  {
    if "time" in params then Reply(200, "Time set successfully", SetClock(params["time"]))
    else Reply(400, "Time parameter missing", NoEffect)
  }

  /**
   * The handler of GET /delete. Whether SD.remove succeeds is not an input:
   * deleteFile only logs it, and the answer is 200 either way.
   */
  function Delete(params: Params): (r: Reply)
    ensures r.status == 400 <==> "file" !in params
    ensures r.status == 200 <==> "file" in params
    ensures r.status == 200 ==> r.effect == Remove("/" + params["file"])
    ensures r.status == 400 ==> r.effect == NoEffect
  {
    if "file" in params then Reply(200, "File deleted successfully", Remove("/" + params["file"]))
    else Reply(400, "File parameter missing", NoEffect)
  }

  /** The handler of GET /rename; `renames` says whether SD.rename succeeds. */
  function RenameFile(params: Params, renames: (string, string) -> bool): (r: Reply)
    ensures r.status == 400 <==> !("old" in params && "new" in params)
    ensures r.status == 200 <==> "old" in params && "new" in params && renames("/" + params["old"], "/" + params["new"])
    ensures r.status == 500 <==> "old" in params && "new" in params && !renames("/" + params["old"], "/" + params["new"])
    ensures r.status != 400 ==> r.effect == Rename("/" + params["old"], "/" + params["new"])
    ensures r.status == 400 ==> r.effect == NoEffect
  {
    if "old" in params && "new" in params then
      var from := "/" + params["old"];
      var to := "/" + params["new"];
      if renames(from, to) then Reply(200, "File renamed successfully", Rename(from, to))
      else Reply(500, "File rename failed", Rename(from, to))
    else
      Reply(400, "File parameters missing", NoEffect)
  }

  /** A handler answers 400 exactly when a parameter it needs is missing; extra parameters change nothing. */
  lemma ExtraParamsIgnored(params: Params, name: string, value: string, lookup: string -> Lookup)
    requires name !in {"file", "time", "old", "new"}
    ensures Download(params[name := value], lookup) == Download(params, lookup)
    ensures SetTime(params[name := value]) == SetTime(params)
    ensures Delete(params[name := value]) == Delete(params)
  {
  }
}
