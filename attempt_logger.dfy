/** The append-only attempt log `attempt_log.json`. */
module AttemptLogger {

  /** A JSON scalar of an entry. */
  datatype Value = Str(s: string) | Num(n: real) | Bool(b: bool) | Null

  /** One attempt record: a JSON object. */
  type Entry = map<string, Value>

  /** The log file: missing, not parseable as JSON, or a JSON array of objects. */
  datatype LogFile = Missing | Unreadable | Records(entries: seq<Entry>)

  /** `{"timestamp": ..., **data}`: the keys of `data` win over the generated timestamp. */
  function NewEntry(data: Entry, timestamp: string): (e: Entry)
    ensures e.Keys == data.Keys + {"timestamp"}
    ensures forall k :: k in data ==> e[k] == data[k]
    ensures "timestamp" !in data ==> e["timestamp"] == Str(timestamp)
  {
    map["timestamp" := Str(timestamp)] + data
  }

  /** The list `log_attempt` starts from: the stored records, or nothing when the file is missing or unreadable. */
  function PriorLogs(f: LogFile): (logs: seq<Entry>)
    ensures f.Records? ==> logs == f.entries
    ensures !f.Records? ==> logs == []
  {
    if f.Records? then f.entries else []
  }

  class AttemptLog {
    var file: LogFile

    constructor (file: LogFile)
      ensures this.file == file
    {
      this.file := file;
    }

    /** `log_attempt(data)`, with the formatted local time passed in as `timestamp`. */
    method LogAttempt(data: Entry, timestamp: string)
      modifies this
      ensures file == Records(PriorLogs(old(file)) + [NewEntry(data, timestamp)])
      ensures old(file).Records? ==> |file.entries| == |old(file).entries| + 1
      ensures old(file).Records? ==> file.entries[..|old(file).entries|] == old(file).entries
      ensures !old(file).Records? ==> file.entries == [NewEntry(data, timestamp)]
    {
      var entry := NewEntry(data, timestamp);
      var logs: seq<Entry> := [];
      if !file.Missing? {
        if file.Records? {
          logs := file.entries;
        } else {
          logs := [];
        }
      }
      logs := logs + [entry];
      file := Records(logs);
    }
  }
}
