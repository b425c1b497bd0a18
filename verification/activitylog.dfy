/**
 The admin audit trail: a JSON array of entries, newest first, kept to the
 last hundred.
 */
module ActivityLog {
  import opened Wrappers
  import opened Json
  import opened Text

  const MaxLogs := 100

  /** The log file: the parsed JSON, or None when it is missing or cannot be
      read or parsed. */
  type LogFile = Option<Value>

  /** `getActivityLogs()`: whatever the file parses to, or an empty list. */
  function GetActivityLogs(file: LogFile): (logs: Value)
    ensures file.Some? ==> logs == file.value
    ensures file.None? ==> logs == Arr([])
  {
    if file.Some? then file.value else Arr([])
  }

  /** The new entry. The id and the ISO timestamp come from the caller. */
  function Entry(id: string, timestamp: string, action: string, resource: string, options: Object): (e: Object)
    ensures Get(e, "id") == Str(id) && Get(e, "timestamp") == Str(timestamp)
    ensures Get(e, "action") == Str(action) && Get(e, "resource") == Str(resource)
    ensures Get(e, "actor") == (if Truthy(Get(options, "actor")) then Get(options, "actor") else Str("admin"))
  {
    map["id" := Str(id), "timestamp" := Str(timestamp), "action" := Str(action), "resource" := Str(resource),
        "resourceId" := Get(options, "resourceId"), "details" := Get(options, "details"),
        "actor" := OrElse(Get(options, "actor"), Str("admin"))]
  }

  /** What logActivity leaves behind: the file and the returned entry (None
      for the null it returns when anything throws). */
  datatype Logged = Logged(file: LogFile, entry: Option<Object>)

  /** `logActivity(action, resource, options)`. Only an array log can take
      `unshift`; any other parsed value throws, and so does a failed write
      (writeOk false); both leave the file as it was. */
  function LogActivity(file: LogFile, action: string, resource: string, options: Object,
                       id: string, timestamp: string, writeOk: bool): (r: Logged)
    ensures r.entry.None? ==> r.file == file
    ensures r.entry.Some? <==> writeOk && GetActivityLogs(file).Arr?
    ensures r.entry.Some? ==> r.entry.value == Entry(id, timestamp, action, resource, options)
  {
    var logs := GetActivityLogs(file);
    if !logs.Arr? then Logged(file, None)
    else
      var e := Entry(id, timestamp, action, resource, options);
      var trimmed := Take([Obj(e)] + logs.items, MaxLogs);
      if !writeOk then Logged(file, None) else Logged(Some(Arr(trimmed)), Some(e))
  }

  /** After a successful log, the new entry is first, the older entries
      follow in order, and the list holds at most MaxLogs: one more than
      before, until it is full. */
  lemma LogActivityPrepends(file: LogFile, action: string, resource: string, options: Object,
                            id: string, timestamp: string)
    requires GetActivityLogs(file).Arr?
    ensures var r := LogActivity(file, action, resource, options, id, timestamp, true);
      var before := GetActivityLogs(file).items;
      var after := GetActivityLogs(r.file);
      && after.Arr?
      && |after.items| == (if |before| < MaxLogs then |before| + 1 else MaxLogs)
      && after.items[0] == Obj(r.entry.value)
      && after.items[1..] == before[..|after.items| - 1]
  {
    var before := GetActivityLogs(file).items;
    var whole := [Obj(Entry(id, timestamp, action, resource, options))] + before;
    var kept := Take(whole, MaxLogs);
    assert kept[1..] == whole[1..|kept|];
    assert whole[1..|kept|] == before[..|kept| - 1];
  }

  /** Whatever was logged before, the log never grows past MaxLogs. */
  lemma LogActivityBounded(file: LogFile, action: string, resource: string, options: Object,
                           id: string, timestamp: string, writeOk: bool)
    requires GetActivityLogs(file).Arr?
    ensures var after := GetActivityLogs(LogActivity(file, action, resource, options, id, timestamp, writeOk).file);
      after.Arr? && |after.items| <= if |GetActivityLogs(file).items| > MaxLogs then |GetActivityLogs(file).items| else MaxLogs
  {
  }

  /** `clearActivityLogs()`: an empty list, when the write succeeds. */
  function ClearActivityLogs(file: LogFile, writeOk: bool): (r: LogFile)
    ensures writeOk ==> GetActivityLogs(r) == Arr([])
    ensures !writeOk ==> r == file
  {
    if writeOk then Some(Arr([])) else file
  }

  /** Logging right after clearing leaves exactly the one new entry. */
  lemma ClearThenLog(file: LogFile, action: string, resource: string, options: Object,
                     id: string, timestamp: string)
    ensures var r := LogActivity(ClearActivityLogs(file, true), action, resource, options, id, timestamp, true);
      GetActivityLogs(r.file) == Arr([Obj(Entry(id, timestamp, action, resource, options))])
  {
  }
}
