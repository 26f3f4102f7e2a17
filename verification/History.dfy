/**
 Everything that can happen to one log file, as a run of events, with the
 history that the promises of the log are about: which entries were accepted,
 what became of each, and which frames stand on disk.
 */
module History {
  import opened Bytes
  import Messages
  import opened Encoder
  import opened LogFiles

  /** Seconds without use after which a `LogFile` may go (src/clean_up.rs). */
  const IDLE := 10 * 60

  /** What became of an entry that is no longer queued. */
  datatype Fate = Drained | Dropped | Lost

  /**
   A frame that stands whole on disk: its header and notice, and the accepted
   entries `lo..hi` it carries. `confirmed` unless the attempt that wrote it
   was reported as failed.
   */
  datatype Record = Record(
    frame: Bytes, head: Option<Bytes>, noticed: nat, at: nat, layout: Messages.Layout,
    lo: nat, hi: nat, confirmed: bool)

  datatype World = World(
    disk: Option<Bytes>,
    file: Option<FileState>,     // the `LogFile` in memory, if there is one
    header: Bytes,               // the definition's header
    accepted: seq<Entry>,        // every entry ever queued, in order
    fates: seq<Fate>,            // of the entries that have left the queue
    records: seq<Record>,        // the whole frames on disk
    torn: Bytes,                 // the broken frame behind them
    floor: nat,                  // entries that had left the queue when the file on disk began
    reportedEarlier: nat,        // drops reported into files since deleted
    unreported: nat)             // drops forgotten by restarts

  datatype Event =
    | Add(entry: Entry, now: nat)
    | Write(attempt: Attempt)
    | CleanUp(now: nat)
    | Restart
    | Delete
    | Redefine(header: Bytes)

  function Start(header: Bytes, disk: Option<Bytes>): World {
    World(disk, None, header, [], [], [], [], 0, 0, 0)
  }

  function Repeat(fate: Fate, n: nat): seq<Fate> {
    seq(n, _ => fate)
  }

  function Step(env: Env, w: World, e: Event): World {
    match e
    case Add(entry, now) => AddStep(w, entry, now)
    case Write(a) => if w.file.None? then w else WriteStep(env, w, w.file.value, a)
    case CleanUp(now) => if w.file.Some? && Idle(w.file.value, now) then w.(file := None) else w
    case Restart => RestartStep(w)
    case Delete => DeleteStep(w)
    case Redefine(header) => w.(header := header)
  }

  function Run(env: Env, w: World, events: seq<Event>): World
    decreases events
  {
    if events == [] then w else Run(env, Step(env, w, events[0]), events[1..])
  }

  /** `clean_up` keeps a file that has entries or was used within ten minutes. */
  predicate Idle(f: FileState, now: nat) {
    f.logs == [] && Elapsed(f.lastUse, now) >= IDLE
  }

  /** `get_log_file`: the file in memory, with the definition's header, or a new one. */
  function Opened(w: World, now: nat): FileState {
    if w.file.Some? then w.file.value.(header := w.header) else NewFile(w.header, now)
  }

  function AddStep(w: World, entry: Entry, now: nat): World {
    var f := Opened(w, now);
    w.(file := Some(Enqueue(f, entry, now)),
       accepted := w.accepted + [entry],
       fates := w.fates + Repeat(Dropped, Shed(f.logs + [entry])))
  }

  function RestartStep(w: World): World {
    if w.file.None? then w
    else w.(file := None,
            fates := w.fates + Repeat(Lost, |w.file.value.logs|),
            unreported := w.unreported + w.file.value.dropped)
  }

  function DeleteStep(w: World): World {
    w.(disk := None, records := [], torn := [], floor := |w.fates|,
       reportedEarlier := w.reportedEarlier + Reported(w.records))
  }

  predicate Touches(f: FileState, a: Attempt) {
    Due(f, a) && !a.fault.AtOpen?
  }

  function Landed(w: World, a: Attempt, c: Cargo): nat {
    Landing(a.fault, |OpeningOf(w.disk)| + |c.frame|)
  }

  predicate LandsWhole(w: World, a: Attempt, c: Cargo) {
    Landed(w, a, c) == |OpeningOf(w.disk)| + |c.frame|
  }

  function RecordOf(w: World, f: FileState, a: Attempt, c: Cargo): Record {
    Record(c.frame, c.head, f.dropped, a.now, a.layout, |w.fates|, |w.fates| + c.consumed, a.fault.NoFault?)
  }

  /** The part of the new frame on disk when not all of it is. */
  function TornOf(w: World, a: Attempt, c: Cargo): Bytes {
    var n, m := Landed(w, a, c), |OpeningOf(w.disk)|;
    if LandsWhole(w, a, c) || n <= m then [] else c.frame[..n - m]
  }

  function WriteStep(env: Env, w: World, f: FileState, a: Attempt): World {
    Append(w, f, a, CargoOf(env, w.disk, f, a))
  }

  function Append(w: World, f: FileState, a: Attempt, c: Cargo): World
    requires c.consumed <= |f.logs|
  {
    var w' := w.(disk := DiskAfter(w.disk, f, a, c.frame), file := Some(FileAfter(f, a, c.consumed)));
    if !Touches(f, a) then w'
    else w'.(
      records := if LandsWhole(w, a, c) then w.records + [RecordOf(w, f, a, c)] else w.records,
      torn := TornOf(w, a, c),
      fates := if a.fault.NoFault? then w.fates + Repeat(Drained, c.consumed) else w.fates)
  }

  function QueuedIn(w: World): nat {
    if w.file.Some? then |w.file.value.logs| else 0
  }

  // ---------------------------------------------------------------------------------------------
  // Reading the history
  // ---------------------------------------------------------------------------------------------

  ghost predicate InRange(r: Record, accepted: seq<Entry>) {
    r.lo <= r.hi <= |accepted|
  }

  ghost predicate AllInRange(records: seq<Record>, accepted: seq<Entry>) {
    forall i :: 0 <= i < |records| ==> InRange(records[i], accepted)
  }

  ghost function TextOf(env: Env, r: Record, accepted: seq<Entry>): Bytes
    requires InRange(r, accepted)
  {
    FrameText(r.head, NoticeFor(env, r.layout, r.noticed, r.at), accepted[r.lo..r.hi])
  }

  ghost function Frames(records: seq<Record>): seq<Bytes> {
    seq(|records|, i requires 0 <= i < |records| => records[i].frame)
  }

  ghost function Texts(env: Env, records: seq<Record>, accepted: seq<Entry>): seq<Bytes>
    requires AllInRange(records, accepted)
  {
    seq(|records|, i requires 0 <= i < |records| => TextOf(env, records[i], accepted))
  }

  /** Drops reported by the confirmed frames on disk. */
  function Reported(records: seq<Record>): nat {
    if records == [] then 0
    else
      var r := records[|records| - 1];
      Reported(records[..|records| - 1]) + if r.confirmed then r.noticed else 0
  }

  /** The entries of the confirmed frames, in file order. */
  ghost function Delivered(records: seq<Record>, accepted: seq<Entry>): seq<Entry>
    requires AllInRange(records, accepted)
  {
    if records == [] then []
    else
      var n := |records| - 1;
      Delivered(records[..n], accepted) +
      if records[n].confirmed then accepted[records[n].lo..records[n].hi] else []
  }

  /** The entries from `from` on that left the queue by a successful write, in the order they were accepted. */
  ghost function DrainedSince(accepted: seq<Entry>, fates: seq<Fate>, from: nat): seq<Entry>
    requires |fates| <= |accepted|
  {
    if |fates| <= from then []
    else
      var n := |fates| - 1;
      DrainedSince(accepted, fates[..n], from) + if fates[n].Drained? then [accepted[n]] else []
  }

  ghost function CountDropped(fates: seq<Fate>): nat {
    if fates == [] then 0
    else CountDropped(fates[..|fates| - 1]) + if fates[|fates| - 1].Dropped? then 1 else 0
  }
}
