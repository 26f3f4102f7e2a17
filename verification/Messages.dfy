/** What users send to the worker (src/messages.rs). */
module Messages {
  import opened Bytes

  datatype LogType = NoSplit | PerHour | PerDay | PerMonth

  /** What of a definition decides where an entry goes and how it is formatted. */
  datatype Layout = Layout(path: string, logType: LogType, noDate: bool, subDirectories: bool)

  datatype Definition = Definition(layout: Layout, header: Bytes, interval: nat, autoRemove: bool, lastUse: nat)

  datatype Data = Data(name: string, date: nat, text: Bytes)

  datatype Message =
    | Log(data: Data)
    | Define(name: string, definition: Definition)
    | Bundle(definitions: seq<(string, Definition)>, logs: seq<Data>)
    | Flush
    | Stop
    | Rules   // cleanup rules: they touch neither definitions nor log files
}
