/**
 The worker: it owns every definition and every log file, takes messages and
 ticks in any order, and flushes when it is told to stop (src/service.rs, `run`;
 src/add_to_log.rs, `def` and `log`; src/clean_up.rs; src/write_to_file.rs,
 `write_to_files`, `log_count` and `flush`).
 */
module Service {
  import opened Bytes
  import Format
  import opened Encoder
  import opened LogFiles
  import opened History
  import opened Conservation
  import opened Messages

  /** The definition's name and the key of the file within it. */
  datatype FileId = FileId(name: string, key: string)

  /** The libraries, the formatted period in a file's name, and the files found on disk at the start. */
  datatype Setting = Setting(
    env: Env,
    period: (LogType, nat) -> string,
    found: FileId -> Option<Bytes>)

  /** One pass over all files: the clock, and how each file's write goes. */
  datatype Pass = Pass(now: nat, rnd: FileId -> byte, fault: FileId -> Fault)

  /** The passes of a flush up to its deadline: at least one is always made. */
  type Passes = passes: seq<Pass> | passes != [] witness [Pass(0, _ => 0, _ => NoFault)]

  /**
   One turn of the select loop. `deleted` are the log files that the old-file
   cleanup takes; `passes` is how a flush would go, up to its deadline.
   */
  datatype Turn =
    | WriterTick(pass: Pass)
    | CleanupTick(now: nat, deleted: set<FileId>)
    | Received(message: Message, now: nat, passes: Passes)

  datatype State = State(definitions: map<string, Definition>, worlds: map<FileId, World>)

  // ---------------------------------------------------------------------------------------------
  // The worker's operations as functions
  // ---------------------------------------------------------------------------------------------

  function DefineOn(s: State, name: string, d: Definition, now: nat): State {
    var lastUse := if name in s.definitions then s.definitions[name].lastUse else now;
    s.(definitions := s.definitions[name := d.(lastUse := lastUse)])
  }

  function IdOf(setting: Setting, d: Definition, data: Data): FileId {
    var named := FileOf(setting, d.layout, data.name, data.date);
    FileId(data.name, named.path + "/" + named.logName)
  }

  /** The name of a log file and the directory it goes into. */
  datatype Named = Named(logName: string, path: string)

  function FileOf(setting: Setting, layout: Layout, name: string, date: nat): Named {
    if layout.logType.NoSplit? then Named(name + ".log", layout.path)
    else
      var period := setting.period(layout.logType, date);
      if layout.subDirectories then Named(name + ".log", layout.path + "/" + period)
      else Named(name + "_" + period + ".log", layout.path)
  }

  function EntryOf(setting: Setting, d: Definition, data: Data): Entry {
    Format.FormatEntry(setting.env.stamp, d.layout, data.date, data.text)
  }

  /** Which file an entry goes to, and what it says there, spelled out. */
  ghost predicate Destined(setting: Setting, d: Definition, data: Data, id: FileId, entry: Entry) {
    var layout, period := d.layout, setting.period(d.layout.logType, data.date);
    && id.name == data.name
    && (layout.logType.NoSplit? ==> id.key == layout.path + "/" + data.name + ".log")
    && (!layout.logType.NoSplit? && layout.subDirectories ==>
        id.key == layout.path + "/" + period + "/" + data.name + ".log")
    && (!layout.logType.NoSplit? && !layout.subDirectories ==>
        id.key == layout.path + "/" + data.name + "_" + period + ".log")
    && (layout.logType.NoSplit? || layout.noDate ==> entry == Format.Trim(Format.IsWhite, data.text))
    && (!layout.logType.NoSplit? && !layout.noDate ==>
        entry == setting.env.stamp(layout.logType, data.date) + [0x20] + data.text)
  }

  lemma IsDestined(setting: Setting, d: Definition, data: Data, id: FileId, entry: Entry)
    ensures Destined(setting, d, data, id, entry) <==>
      id == IdOf(setting, d, data) && entry == EntryOf(setting, d, data)
  {
    var path, name, period := d.layout.path, data.name, setting.period(d.layout.logType, data.date);
    assert path + "/" + (name + ".log") == path + "/" + name + ".log";
    assert path + "/" + period + "/" + (name + ".log") == path + "/" + period + "/" + name + ".log";
    assert path + "/" + (name + "_" + period + ".log") == path + "/" + name + "_" + period + ".log";
  }

  function LayoutOf(definitions: map<string, Definition>, name: string): Layout {
    if name in definitions then definitions[name].layout else Layout("", NoSplit, true, false)
  }

  function WorldOf(setting: Setting, s: State, id: FileId, header: Bytes): World {
    if id in s.worlds then s.worlds[id] else Start(header, setting.found(id))
  }

  function LogOn(setting: Setting, s: State, data: Data, now: nat): State {
    if data.name !in s.definitions then s
    else
      var d := s.definitions[data.name];
      var id := IdOf(setting, d, data);
      var w := Step(setting.env, WorldOf(setting, s, id, d.header), Redefine(d.header));
      State(s.definitions[data.name := d.(lastUse := now)],
            s.worlds[id := Step(setting.env, w, Add(EntryOf(setting, d, data), now))])
  }

  function AttemptOn(s: State, id: FileId, pass: Pass, flushing: bool): Attempt {
    var interval := if flushing || id.name !in s.definitions then 0 else s.definitions[id.name].interval;
    Attempt(pass.now, interval, pass.rnd(id), pass.fault(id), LayoutOf(s.definitions, id.name))
  }

  function Written(setting: Setting, s: State, id: FileId, pass: Pass, flushing: bool): World
    requires id in s.worlds
  {
    Step(setting.env, s.worlds[id], Write(AttemptOn(s, id, pass, flushing)))
  }

  function WriteOn(setting: Setting, s: State, pass: Pass, flushing: bool): State {
    s.(worlds := map id | id in s.worlds :: Written(setting, s, id, pass, flushing))
  }

  /** `log_count`, summed in any order. */
  ghost function Queued(worlds: map<FileId, World>): nat {
    if worlds == map[] then 0
    else
      var id :| id in worlds;
      QueuedIn(worlds[id]) + Queued(worlds - {id})
  }

  /** `flush`: passes until nothing is queued or the deadline comes. */
  ghost function FlushOn(setting: Setting, s: State, passes: Passes): State
    decreases |passes|
  {
    var s' := WriteOn(setting, s, passes[0], true);
    if Queued(s'.worlds) == 0 || |passes| == 1 then s' else FlushOn(setting, s', passes[1..])
  }

  /** The second `retain` keeps a definition that has files left, was used lately, or never goes by itself. */
  predicate Kept(d: Definition, name: string, worlds: map<FileId, World>, now: nat) {
    || !d.autoRemove
    || (exists id | id in worlds :: id.name == name && worlds[id].file.Some?)
    || Elapsed(d.lastUse, now) < IDLE
  }

  function SweptWorlds(setting: Setting, worlds: map<FileId, World>, now: nat): map<FileId, World> {
    map id | id in worlds :: Step(setting.env, worlds[id], CleanUp(now))
  }

  function KeptDefinitions(definitions: map<string, Definition>, worlds: map<FileId, World>, now: nat)
    : map<string, Definition>
  {
    map name | name in definitions && Kept(definitions[name], name, worlds, now) :: definitions[name]
  }

  /** A definition that goes takes its files with it, and whatever they hold. */
  function LeftWorlds(setting: Setting, worlds: map<FileId, World>, definitions: map<string, Definition>)
    : map<FileId, World>
  {
    map id | id in worlds :: if id.name in definitions then worlds[id] else Step(setting.env, worlds[id], Restart)
  }

  function CleanUpOn(setting: Setting, s: State, now: nat): State {
    var worlds := SweptWorlds(setting, s.worlds, now);
    var definitions := KeptDefinitions(s.definitions, worlds, now);
    State(definitions, LeftWorlds(setting, worlds, definitions))
  }

  function DeleteOn(setting: Setting, s: State, deleted: set<FileId>): State {
    s.(worlds := map id | id in s.worlds ::
      if id in deleted then Step(setting.env, s.worlds[id], Delete) else s.worlds[id])
  }

  function DefineAll(s: State, ds: seq<(string, Definition)>, now: nat): State
    decreases ds
  {
    if ds == [] then s else DefineAll(DefineOn(s, ds[0].0, ds[0].1, now), ds[1..], now)
  }

  function LogAll(setting: Setting, s: State, logs: seq<Data>, now: nat): State
    decreases logs
  {
    if logs == [] then s else LogAll(setting, LogOn(setting, s, logs[0], now), logs[1..], now)
  }

  ghost function TurnOn(setting: Setting, s: State, turn: Turn): State {
    match turn
    case WriterTick(pass) => WriteOn(setting, s, pass, false)
    case CleanupTick(now, deleted) => DeleteOn(setting, CleanUpOn(setting, s, now), deleted)
    case Received(m, now, passes) => MessageOn(setting, s, m, now, passes)
  }

  ghost function MessageOn(setting: Setting, s: State, m: Message, now: nat, passes: Passes): State {
    match m
    case Log(data) => LogOn(setting, s, data, now)
    case Define(name, d) => DefineOn(s, name, d, now)
    case Bundle(ds, logs) => LogAll(setting, DefineAll(s, ds, now), logs, now)
    case Flush => FlushOn(setting, s, passes)
    case Stop => s
    case Rules => s
  }

  predicate Stops(turn: Turn) {
    turn.Received? && turn.message.Stop?
  }

  /** The select loop, until it is told to stop or the channel is closed. */
  ghost function Serve(setting: Setting, s: State, turns: seq<Turn>): State
    decreases turns
  {
    if turns == [] || Stops(turns[0]) then s
    else Serve(setting, TurnOn(setting, s, turns[0]), turns[1..])
  }

  // ---------------------------------------------------------------------------------------------
  // The worker
  // ---------------------------------------------------------------------------------------------

  /** `entry` was accepted as the last of the file `id`, which is open; nothing else happened to any file. */
  ghost predicate Accepts(
      setting: Setting, before: map<FileId, World>, after: map<FileId, World>, id: FileId, entry: Entry, header: Bytes)
  {
    && after.Keys == before.Keys + {id}
    && after[id].accepted == (if id in before then before[id].accepted else []) + [entry]
    && after[id].disk == (if id in before then before[id].disk else setting.found(id))
    && after[id].file.Some? && EndsWith(after[id].file.value.logs, entry) && after[id].file.value.header == header
    && forall other :: other in before && other != id ==> after[other] == before[other]
  }

  predicate EndsWith(logs: seq<Entry>, entry: Entry) {
    logs != [] && logs[|logs| - 1] == entry
  }

  lemma NewestIsQueued(w: World, entry: Entry, now: nat)
    ensures var w' := AddStep(w, entry, now); w'.file.Some? && EndsWith(w'.file.value.logs, entry)
  {
    ShedIsLeast(Opened(w, now).logs + [entry]);
  }

  class OpLogWorker {
    const setting: Setting
    var definitions: map<string, Definition>
    var worlds: map<FileId, World>

    ghost function View(): State
      reads this
    {
      State(definitions, worlds)
    }

    constructor (setting: Setting)
      ensures this.setting == setting && View() == State(map[], map[])
    {
      this.setting := setting;
      definitions, worlds := map[], map[];
    }

    /** An update keeps the time of last use; no other definition and no file is touched. */
    method Def(name: string, d: Definition, now: nat)
      modifies this
      ensures View() == DefineOn(old(View()), name, d, now)
      ensures definitions.Keys == old(definitions.Keys) + {name}
      ensures definitions[name] ==
        d.(lastUse := if name in old(definitions) then old(definitions[name].lastUse) else now)
      ensures forall other :: other in old(definitions) && other != name ==>
        definitions[other] == old(definitions[other])
      ensures worlds == old(worlds)
    {
      if name in definitions {
        definitions := definitions[name := d.(lastUse := definitions[name].lastUse)];
      } else {
        definitions := definitions[name := d.(lastUse := now)];
      }
    }

    /** An entry under an undefined name changes nothing. */
    method LogEntry(data: Data, now: nat)
      modifies this
      ensures View() == LogOn(setting, old(View()), data, now)
      ensures data.name !in old(definitions) ==> View() == old(View())
      ensures data.name in old(definitions) ==>
        var d := old(definitions[data.name]);
        && definitions == old(definitions)[data.name := d.(lastUse := now)]
        && forall id, entry :: Destined(setting, d, data, id, entry) ==>
            Accepts(setting, old(worlds), worlds, id, entry, d.header)
    {
      forall d, id, entry ensures Destined(setting, d, data, id, entry) <==>
        id == IdOf(setting, d, data) && entry == EntryOf(setting, d, data)
      {
        IsDestined(setting, d, data, id, entry);
      }
      if data.name !in definitions {
        return;
      }
      var d := definitions[data.name];
      definitions := definitions[data.name := d.(lastUse := now)];
      var id := IdOf(setting, d, data);
      var w := if id in worlds then worlds[id] else Start(d.header, setting.found(id));
      w := Step(setting.env, w, Redefine(d.header));
      NewestIsQueued(w, EntryOf(setting, d, data), now);
      worlds := worlds[id := Step(setting.env, w, Add(EntryOf(setting, d, data), now))];
    }

    method ProcessBundle(ds: seq<(string, Definition)>, logs: seq<Data>, now: nat)
      modifies this
      ensures View() == LogAll(setting, DefineAll(old(View()), ds, now), logs, now)
    {
      var i := 0;
      while i < |ds|
        invariant i <= |ds|
        invariant DefineAll(View(), ds[i..], now) == DefineAll(old(View()), ds, now)
      {
        Def(ds[i].0, ds[i].1, now);
        assert ds[i..][1..] == ds[i + 1..];
        i := i + 1;
      }
      ghost var defined := View();
      i := 0;
      while i < |logs|
        invariant i <= |logs|
        invariant LogAll(setting, View(), logs[i..], now) == LogAll(setting, defined, logs, now)
      {
        LogEntry(logs[i], now);
        assert logs[i..][1..] == logs[i + 1..];
        i := i + 1;
      }
    }

    /** The files in whatever order the map gives them: the result does not depend on it. */
    method WriteToFiles(pass: Pass, flushing: bool)
      modifies this
      ensures View() == WriteOn(setting, old(View()), pass, flushing)
    {
      ghost var s := View();
      var todo := worlds.Keys;
      while todo != {}
        invariant todo <= worlds.Keys == s.worlds.Keys && definitions == s.definitions
        invariant forall id :: id in s.worlds ==>
          worlds[id] == if id in todo then s.worlds[id] else Written(setting, s, id, pass, flushing)
        decreases todo
      {
        var id :| id in todo;
        var interval := if flushing || id.name !in definitions then 0 else definitions[id.name].interval;
        var a := Attempt(pass.now, interval, pass.rnd(id), pass.fault(id), LayoutOf(definitions, id.name));
        worlds := worlds[id := Step(setting.env, worlds[id], Write(a))];
        todo := todo - {id};
      }
    }

    method LogCount() returns (count: nat)
      ensures count == Queued(worlds)
    {
      count := 0;
      var todo := worlds;
      while todo != map[]
        invariant forall id :: id in todo ==> id in worlds && todo[id] == worlds[id]
        invariant count + Queued(todo) == Queued(worlds)
        decreases todo.Keys
      {
        var id :| id in todo;
        QueuedWithout(todo, id);
        count := count + QueuedIn(todo[id]);
        todo := todo - {id};
      }
    }

    method FlushFiles(passes: Passes)
      modifies this
      ensures View() == FlushOn(setting, old(View()), passes)
    {
      var i := 0;
      while true
        invariant i < |passes|
        invariant FlushOn(setting, View(), passes[i..]) == FlushOn(setting, old(View()), passes)
        decreases |passes| - i
      {
        WriteToFiles(passes[i], true);
        var left := LogCount();
        assert passes[i..][0] == passes[i] && passes[i..][1..] == passes[i + 1..];
        i := i + 1;
        if left == 0 || i == |passes| {
          break;
        }
      }
    }

    /**
     Two `retain`s: of the files, and then of the definitions. Every file but the
     idle ones is left as it was, and those hold no entry and no drop to report;
     a definition goes exactly if it asked to, was not used lately and has no
     file left in memory.
     */
    method CleanUpIdle(now: nat)
      modifies this
      ensures View() == CleanUpOn(setting, old(View()), now)
      ensures Good(old(View())) ==> forall id :: id in old(worlds) ==>
        id in worlds && Undisturbed(old(worlds[id]), worlds[id], now)
      ensures Good(old(View())) ==> forall name :: name in old(definitions) ==>
        (name !in definitions <==> OutOfUse(old(definitions[name]), name, worlds, now))
      ensures forall name :: name in definitions ==>
        name in old(definitions) && definitions[name] == old(definitions[name])
    {
      ghost var s := View();
      if Good(s) {
        CleanUpDiscardsNothing(setting, s, now);
        DefinitionGoesExactly(setting, s, now);
      }
      worlds := SweptWorlds(setting, worlds, now);
      definitions := KeptDefinitions(definitions, worlds, now);
      worlds := LeftWorlds(setting, worlds, definitions);
    }

    /** Files that the old-file cleanup removed from disk. */
    method NoteDeleted(deleted: set<FileId>)
      modifies this
      ensures View() == DeleteOn(setting, old(View()), deleted)
      ensures definitions == old(definitions) && worlds.Keys == old(worlds.Keys)
      ensures forall id :: id in worlds ==> worlds[id].file == old(worlds[id].file)
      ensures forall id :: id in worlds ==> worlds[id].disk == if id in deleted then None else old(worlds[id].disk)
    {
      worlds := map id | id in worlds :: if id in deleted then Step(setting.env, worlds[id], Delete) else worlds[id];
    }

    /** The select loop over any schedule of ticks and messages, and the final flush. */
    method Run(turns: seq<Turn>, last: Passes)
      modifies this
      ensures View() == FlushOn(setting, Serve(setting, old(View()), turns), last)
    {
      var i := 0;
      while i < |turns| && !Stops(turns[i])
        invariant i <= |turns|
        invariant Serve(setting, View(), turns[i..]) == Serve(setting, old(View()), turns)
      {
        TakeTurn(turns[i]);
        assert turns[i..][1..] == turns[i + 1..];
        i := i + 1;
      }
      FlushFiles(last);
    }

    method TakeTurn(turn: Turn)
      modifies this
      ensures View() == TurnOn(setting, old(View()), turn)
    {
      match turn {
        case WriterTick(pass) => WriteToFiles(pass, false);
        case CleanupTick(now, deleted) =>
          CleanUpIdle(now);
          NoteDeleted(deleted);
        case Received(m, now, passes) =>
          match m {
            case Log(data) => LogEntry(data, now);
            case Define(name, d) => Def(name, d, now);
            case Bundle(ds, logs) => ProcessBundle(ds, logs, now);
            case Flush => FlushFiles(passes);
            case Stop =>
            case Rules =>
          }
      }
    }
  }

  // ---------------------------------------------------------------------------------------------
  // Counting what is queued
  // ---------------------------------------------------------------------------------------------

  lemma {:induction false} QueuedWithout(worlds: map<FileId, World>, id: FileId)
    requires id in worlds
    ensures Queued(worlds) == QueuedIn(worlds[id]) + Queued(worlds - {id})
    decreases |worlds|
  {
    var x :| x in worlds && Queued(worlds) == QueuedIn(worlds[x]) + Queued(worlds - {x});
    if x != id {
      QueuedWithout(worlds - {x}, id);
      QueuedWithout(worlds - {id}, x);
      assert worlds - {x} - {id} == worlds - {id} - {x};
    }
  }

  lemma {:induction false} QueuedIsMonotonic(before: map<FileId, World>, after: map<FileId, World>)
    requires before.Keys == after.Keys
    requires forall id :: id in before ==> QueuedIn(after[id]) <= QueuedIn(before[id])
    ensures Queued(after) <= Queued(before)
    ensures forall id :: id in before && QueuedIn(after[id]) < QueuedIn(before[id]) ==> Queued(after) < Queued(before)
    decreases |before|
  {
    if before != map[] {
      var x :| x in before;
      QueuedWithout(before, x);
      QueuedWithout(after, x);
      QueuedIsMonotonic(before - {x}, after - {x});
      forall id | id in before && QueuedIn(after[id]) < QueuedIn(before[id]) ensures Queued(after) < Queued(before) {
        if id != x {
          assert id in before - {x};
        }
      }
    } else {
      assert after == map[];
    }
  }

  lemma QueuedIsZeroExactly(worlds: map<FileId, World>)
    ensures Queued(worlds) == 0 <==> forall id :: id in worlds ==> QueuedIn(worlds[id]) == 0
  {
    if Queued(worlds) == 0 {
      forall id | id in worlds ensures QueuedIn(worlds[id]) == 0 {
        QueuedWithout(worlds, id);
      }
    }
    if forall id :: id in worlds ==> QueuedIn(worlds[id]) == 0 {
      AllEmpty(worlds);
    }
  }

  lemma {:induction false} AllEmpty(worlds: map<FileId, World>)
    requires forall id :: id in worlds ==> QueuedIn(worlds[id]) == 0
    ensures Queued(worlds) == 0
    decreases |worlds|
  {
    if worlds != map[] {
      var x :| x in worlds;
      QueuedWithout(worlds, x);
      AllEmpty(worlds - {x});
    }
  }

  // ---------------------------------------------------------------------------------------------
  // Flushing
  // ---------------------------------------------------------------------------------------------

  ghost predicate Succeeds(pass: Pass) {
    forall id :: pass.fault(id) == NoFault
  }

  /** The writes of the flush succeed, and its deadline does not come before the queues are empty. */
  ghost predicate Completes(setting: Setting, s: State, passes: Passes) {
    (forall i :: 0 <= i < |passes| ==> Succeeds(passes[i])) && |passes| >= Queued(s.worlds)
  }

  /** A write that succeeds, with no interval to wait for, takes entries off every queue that has some. */
  lemma WriteShrinksQueue(setting: Setting, s: State, id: FileId, pass: Pass)
    requires id in s.worlds && pass.fault(id) == NoFault
    ensures var before, after := QueuedIn(s.worlds[id]), QueuedIn(Written(setting, s, id, pass, true));
      after <= before && (before > 0 ==> after < before)
  {
  }

  /** Every successful pass of a flush makes progress. */
  lemma PassShrinksQueues(setting: Setting, s: State, pass: Pass)
    requires Succeeds(pass)
    ensures var s' := WriteOn(setting, s, pass, true);
      Queued(s'.worlds) <= Queued(s.worlds) && (Queued(s.worlds) > 0 ==> Queued(s'.worlds) < Queued(s.worlds))
  {
    var s' := WriteOn(setting, s, pass, true);
    forall id | id in s.worlds
      ensures QueuedIn(s'.worlds[id]) <= QueuedIn(s.worlds[id])
      ensures QueuedIn(s.worlds[id]) > 0 ==> QueuedIn(s'.worlds[id]) < QueuedIn(s.worlds[id])
    {
      WriteShrinksQueue(setting, s, id, pass);
    }
    QueuedIsMonotonic(s.worlds, s'.worlds);
    QueuedIsZeroExactly(s.worlds);
  }

  /** A flush whose writes succeed empties every queue, in at most as many passes as entries were queued. */
  lemma {:induction false} FlushEmpties(setting: Setting, s: State, passes: Passes)
    requires Completes(setting, s, passes)
    ensures Queued(FlushOn(setting, s, passes).worlds) == 0
    decreases |passes|
  {
    var s' := WriteOn(setting, s, passes[0], true);
    PassShrinksQueues(setting, s, passes[0]);
    if Queued(s'.worlds) > 0 {
      FlushEmpties(setting, s', passes[1..]);
    }
  }

  // ---------------------------------------------------------------------------------------------
  // Over the worker's whole life
  // ---------------------------------------------------------------------------------------------

  ghost predicate AllSound(worlds: map<FileId, World>) {
    forall id :: id in worlds ==> HistoryInv(worlds[id])
  }

  /** Every file in memory belongs to a definition. */
  ghost predicate Owned(s: State) {
    forall id :: id in s.worlds && s.worlds[id].file.Some? ==> id.name in s.definitions
  }

  ghost predicate Good(s: State) {
    AllSound(s.worlds) && Owned(s)
  }

  /** `w'` is what became of `w` within this process: nothing more was lost to a restart. */
  ghost predicate Later(w: World, w': World) {
    && w.accepted <= w'.accepted && w.fates <= w'.fates
    && forall i :: |w.fates| <= i < |w'.fates| ==> !w'.fates[i].Lost?
  }

  ghost predicate AllLater(before: map<FileId, World>, after: map<FileId, World>) {
    forall id :: id in before ==> id in after && Later(before[id], after[id])
  }

  /** What every operation of the worker does to a good state. */
  ghost predicate GoesOn(s: State, s': State) {
    Good(s') && AllLater(s.worlds, s'.worlds)
  }

  lemma LaterIsTransitive(a: map<FileId, World>, b: map<FileId, World>, c: map<FileId, World>)
    requires AllLater(a, b) && AllLater(b, c)
    ensures AllLater(a, c)
  {
  }

  lemma GoesFurther(a: State, b: State, c: State)
    requires GoesOn(a, b) && GoesOn(b, c)
    ensures GoesOn(a, c)
  {
    LaterIsTransitive(a.worlds, b.worlds, c.worlds);
  }

  lemma StepAppends(env: Env, w: World, e: Event)
    requires e.Restart? ==> w.file.None?
    ensures Later(w, Step(env, w, e))
  {
  }

  lemma StepGoesOn(env: Env, w: World, e: Event)
    requires HistoryInv(w) && (e.Restart? ==> w.file.None?)
    ensures HistoryInv(Step(env, w, e)) && Later(w, Step(env, w, e))
  {
    StepAppends(env, w, e);
    StepKeepsHistory(env, w, e);
  }

  lemma AddGoesOn(env: Env, w: World, header: Bytes, entry: Entry, now: nat)
    requires HistoryInv(w)
    ensures var w' := Step(env, Step(env, w, Redefine(header)), Add(entry, now)); HistoryInv(w') && Later(w, w')
  {
    StepGoesOn(env, w, Redefine(header));
    StepGoesOn(env, Step(env, w, Redefine(header)), Add(entry, now));
  }

  lemma WriteGoesOn(setting: Setting, s: State, pass: Pass, flushing: bool)
    requires Good(s)
    ensures GoesOn(s, WriteOn(setting, s, pass, flushing))
  {
    forall id | id in s.worlds
      ensures var w' := Written(setting, s, id, pass, flushing); HistoryInv(w') && Later(s.worlds[id], w')
    {
      StepGoesOn(setting.env, s.worlds[id], Write(AttemptOn(s, id, pass, flushing)));
    }
  }

  lemma LogKeepsOwned(setting: Setting, s: State, data: Data, now: nat)
    requires Owned(s)
    ensures Owned(LogOn(setting, s, data, now))
  {
  }

  lemma LogGoesOn(setting: Setting, s: State, data: Data, now: nat)
    requires Good(s)
    ensures GoesOn(s, LogOn(setting, s, data, now))
  {
    LogKeepsOwned(setting, s, data, now);
    LogKeepsSound(setting, s, data, now);
  }

  lemma WorldOfIsSound(setting: Setting, s: State, id: FileId, header: Bytes)
    requires AllSound(s.worlds)
    ensures HistoryInv(WorldOf(setting, s, id, header))
  {
    StartHasHistory(header, setting.found(id));
  }

  lemma UpdateKeepsSound(worlds: map<FileId, World>, id: FileId, w: World)
    requires AllSound(worlds) && HistoryInv(w) && (id in worlds ==> Later(worlds[id], w))
    ensures AllSound(worlds[id := w]) && AllLater(worlds, worlds[id := w])
  {
  }

  lemma LogKeepsSound(setting: Setting, s: State, data: Data, now: nat)
    requires AllSound(s.worlds)
    ensures AllSound(LogOn(setting, s, data, now).worlds) && AllLater(s.worlds, LogOn(setting, s, data, now).worlds)
  {
    if data.name in s.definitions {
      var d := s.definitions[data.name];
      var id := IdOf(setting, d, data);
      WorldOfIsSound(setting, s, id, d.header);
      AddGoesOn(setting.env, WorldOf(setting, s, id, d.header), d.header, EntryOf(setting, d, data), now);
      UpdateKeepsSound(s.worlds, id, LogOn(setting, s, data, now).worlds[id]);
    }
  }

  lemma {:induction false} LogAllGoesOn(setting: Setting, s: State, logs: seq<Data>, now: nat)
    requires Good(s)
    ensures GoesOn(s, LogAll(setting, s, logs, now))
    decreases logs
  {
    if logs != [] {
      LogGoesOn(setting, s, logs[0], now);
      LogAllGoesOn(setting, LogOn(setting, s, logs[0], now), logs[1..], now);
      GoesFurther(s, LogOn(setting, s, logs[0], now), LogAll(setting, s, logs, now));
    }
  }

  lemma {:induction false} DefinesTouchNoFile(s: State, ds: seq<(string, Definition)>, now: nat)
    ensures DefineAll(s, ds, now).worlds == s.worlds
    ensures s.definitions.Keys <= DefineAll(s, ds, now).definitions.Keys
    decreases ds
  {
    if ds != [] {
      DefinesTouchNoFile(DefineOn(s, ds[0].0, ds[0].1, now), ds[1..], now);
    }
  }

  /** Passes one after the other. */
  function PassesOn(setting: Setting, s: State, passes: seq<Pass>): State
    decreases passes
  {
    if passes == [] then s else PassesOn(setting, WriteOn(setting, s, passes[0], true), passes[1..])
  }

  /** A flush makes some of its passes, and at least the first. */
  lemma {:induction false} FlushIsPasses(setting: Setting, s: State, passes: Passes) returns (n: nat)
    ensures 0 < n <= |passes| && FlushOn(setting, s, passes) == PassesOn(setting, s, passes[..n])
    decreases |passes|
  {
    var s1 := WriteOn(setting, s, passes[0], true);
    if Queued(s1.worlds) == 0 || |passes| == 1 {
      n := 1;
      assert passes[..1][1..] == [];
    } else {
      var m := FlushIsPasses(setting, s1, passes[1..]);
      n := m + 1;
      assert passes[..n][1..] == passes[1..][..m];
    }
  }

  lemma {:induction false} PassesGoOn(setting: Setting, s: State, passes: seq<Pass>)
    requires Good(s)
    ensures GoesOn(s, PassesOn(setting, s, passes))
    decreases passes
  {
    if passes != [] {
      var s1 := WriteOn(setting, s, passes[0], true);
      WriteGoesOn(setting, s, passes[0], true);
      PassesGoOn(setting, s1, passes[1..]);
      GoesFurther(s, s1, PassesOn(setting, s1, passes[1..]));
    }
  }

  lemma FlushGoesOn(setting: Setting, s: State, passes: Passes)
    requires Good(s)
    ensures GoesOn(s, FlushOn(setting, s, passes))
  {
    var n := FlushIsPasses(setting, s, passes);
    PassesGoOn(setting, s, passes[..n]);
  }

  /** A definition only goes once none of its files is left in memory. */
  lemma RemovedDefinitionsAreEmpty(setting: Setting, s: State, now: nat, id: FileId)
    requires Owned(s) && id in s.worlds && id.name !in CleanUpOn(setting, s, now).definitions
    ensures SweptWorlds(setting, s.worlds, now)[id].file.None?
  {
    var worlds := SweptWorlds(setting, s.worlds, now);
    if worlds[id].file.Some? {
      assert id.name in s.definitions;
      assert Kept(s.definitions[id.name], id.name, worlds, now);
    }
  }

  lemma CleanUpKeepsSound(setting: Setting, s: State, now: nat, id: FileId)
    requires Owned(s) && id in s.worlds && HistoryInv(s.worlds[id])
    ensures var w' := CleanUpOn(setting, s, now).worlds[id]; HistoryInv(w') && Later(s.worlds[id], w')
  {
    StepGoesOn(setting.env, s.worlds[id], CleanUp(now));
    if id.name !in CleanUpOn(setting, s, now).definitions {
      RemovedDefinitionsAreEmpty(setting, s, now, id);
      StepGoesOn(setting.env, SweptWorlds(setting, s.worlds, now)[id], Restart);
    }
  }

  lemma CleanUpKeepsOwned(setting: Setting, s: State, now: nat)
    requires Owned(s)
    ensures Owned(CleanUpOn(setting, s, now))
  {
  }

  lemma CleanUpGoesOn(setting: Setting, s: State, now: nat)
    requires Good(s)
    ensures GoesOn(s, CleanUpOn(setting, s, now))
  {
    CleanUpKeepsOwned(setting, s, now);
    var s' := CleanUpOn(setting, s, now);
    forall id | id in s.worlds ensures HistoryInv(s'.worlds[id]) && Later(s.worlds[id], s'.worlds[id]) {
      CleanUpKeepsSound(setting, s, now, id);
    }
  }

  /**
   The idle cleanup discards no queued entry and no drop count, removes no
   definition that did not ask for it, and keeps every file it does not remove
   as it was.
   */
  lemma CleanUpDiscardsNothing(setting: Setting, s: State, now: nat)
    requires Good(s)
    ensures var s' := CleanUpOn(setting, s, now);
      && (forall id :: id in s.worlds ==> id in s'.worlds && Undisturbed(s.worlds[id], s'.worlds[id], now))
      && (forall name :: name in s.definitions && !s.definitions[name].autoRemove ==> name in s'.definitions)
  {
    forall id | id in s.worlds ensures Undisturbed(s.worlds[id], CleanUpOn(setting, s, now).worlds[id], now) {
      CleanUpSpares(setting, s, now, id);
    }
  }

  lemma CleanUpSpares(setting: Setting, s: State, now: nat, id: FileId)
    requires Good(s) && id in s.worlds
    ensures Undisturbed(s.worlds[id], CleanUpOn(setting, s, now).worlds[id], now)
  {
    if id.name !in CleanUpOn(setting, s, now).definitions {
      RemovedDefinitionsAreEmpty(setting, s, now, id);
    }
    IdleHoldsNothing(s.worlds[id], now);
  }

  ghost predicate HasNoFile(worlds: map<FileId, World>, name: string) {
    forall id :: id in worlds && id.name == name ==> worlds[id].file.None?
  }

  /** The definition asked to go when unused, was not used for ten minutes, and has no file in memory. */
  ghost predicate OutOfUse(d: Definition, name: string, worlds: map<FileId, World>, now: nat) {
    d.autoRemove && d.lastUse + 600 <= now && HasNoFile(worlds, name)
  }

  lemma DefinitionGoesExactly(setting: Setting, s: State, now: nat)
    requires Good(s)
    ensures var s' := CleanUpOn(setting, s, now);
      forall name :: name in s.definitions ==>
        (name !in s'.definitions <==> OutOfUse(s.definitions[name], name, s'.worlds, now))
  {
    forall name | name in s.definitions
      ensures HasNoFile(CleanUpOn(setting, s, now).worlds, name) <==>
        HasNoFile(SweptWorlds(setting, s.worlds, now), name)
    {
      SameFilesLeft(setting, s, now, name);
    }
  }

  /** Removing definitions takes no file out of memory that the files' own removal left. */
  lemma SameFilesLeft(setting: Setting, s: State, now: nat, name: string)
    requires Good(s)
    ensures HasNoFile(CleanUpOn(setting, s, now).worlds, name) <==> HasNoFile(SweptWorlds(setting, s.worlds, now), name)
  {
    var s', worlds := CleanUpOn(setting, s, now), SweptWorlds(setting, s.worlds, now);
    forall id | id in worlds && id.name == name ensures s'.worlds[id].file.None? <==> worlds[id].file.None? {
      if name !in s'.definitions {
        RemovedDefinitionsAreEmpty(setting, s, now, id);
      }
    }
  }

  /** Only an idle file goes, and an idle file has neither entries nor drops to report. */
  ghost predicate Undisturbed(w: World, w': World, now: nat) {
    if w.file.Some? && Idle(w.file.value, now) then
      w' == w.(file := None) && w.file.value.logs == [] && w.file.value.dropped == 0
    else w' == w
  }

  lemma IdleHoldsNothing(w: World, now: nat)
    requires HistoryInv(w)
    ensures w.file.Some? && Idle(w.file.value, now) ==> w.file.value.dropped == 0
  {
  }

  lemma DeleteKeepsOwned(setting: Setting, s: State, deleted: set<FileId>)
    requires Owned(s)
    ensures Owned(DeleteOn(setting, s, deleted))
  {
  }

  lemma DeleteGoesOn(setting: Setting, s: State, deleted: set<FileId>)
    requires Good(s)
    ensures GoesOn(s, DeleteOn(setting, s, deleted))
  {
    DeleteKeepsOwned(setting, s, deleted);
    DeleteKeepsSound(setting, s, deleted);
  }

  lemma DeleteKeepsSound(setting: Setting, s: State, deleted: set<FileId>)
    requires AllSound(s.worlds)
    ensures AllSound(DeleteOn(setting, s, deleted).worlds) && AllLater(s.worlds, DeleteOn(setting, s, deleted).worlds)
  {
    forall id | id in s.worlds
      ensures var w' := Step(setting.env, s.worlds[id], Delete); HistoryInv(w') && Later(s.worlds[id], w')
    {
      StepGoesOn(setting.env, s.worlds[id], Delete);
    }
  }

  lemma TurnGoesOn(setting: Setting, s: State, turn: Turn)
    requires Good(s)
    ensures GoesOn(s, TurnOn(setting, s, turn))
  {
    match turn {
      case WriterTick(pass) => WriteGoesOn(setting, s, pass, false);
      case CleanupTick(now, deleted) =>
        var cleaned := CleanUpOn(setting, s, now);
        CleanUpGoesOn(setting, s, now);
        DeleteGoesOn(setting, cleaned, deleted);
        GoesFurther(s, cleaned, DeleteOn(setting, cleaned, deleted));
      case Received(m, now, passes) =>
        match m {
          case Log(data) => LogGoesOn(setting, s, data, now);
          case Bundle(ds, logs) =>
            DefinesTouchNoFile(s, ds, now);
            LogAllGoesOn(setting, DefineAll(s, ds, now), logs, now);
          case Flush => FlushGoesOn(setting, s, passes);
          case _ =>
        }
    }
  }

  lemma {:induction false} ServiceGoesOn(setting: Setting, s: State, turns: seq<Turn>)
    requires Good(s)
    ensures GoesOn(s, Serve(setting, s, turns))
    decreases turns
  {
    if turns != [] && !Stops(turns[0]) {
      var s1 := TurnOn(setting, s, turns[0]);
      TurnGoesOn(setting, s, turns[0]);
      ServiceGoesOn(setting, s1, turns[1..]);
      GoesFurther(s, s1, Serve(setting, s1, turns[1..]));
    }
  }

  lemma {:induction false} ServeInTwo(setting: Setting, s: State, turns: seq<Turn>, k: nat)
    requires k <= |turns| && forall i :: 0 <= i < k ==> !Stops(turns[i])
    ensures Serve(setting, s, turns) == Serve(setting, Serve(setting, s, turns[..k]), turns[k..])
    decreases turns
  {
    if k > 0 {
      assert turns[..k][1..] == turns[1..][..k - 1] && turns[k..] == turns[1..][k - 1..];
      ServeInTwo(setting, TurnOn(setting, s, turns[0]), turns[1..], k - 1);
    } else {
      assert turns[..k] == [] && turns[k..] == turns;
    }
  }

  lemma ServeLast(setting: Setting, s: State, turns: seq<Turn>)
    requires turns != [] && forall i :: 0 <= i < |turns| ==> !Stops(turns[i])
    ensures Serve(setting, s, turns) ==
      TurnOn(setting, Serve(setting, s, turns[..|turns| - 1]), turns[|turns| - 1])
  {
    var n := |turns| - 1;
    ServeInTwo(setting, s, turns, n);
    assert turns[n..] == [turns[n]] && [turns[n]][1..] == [];
    var s1 := Serve(setting, s, turns[..n]);
    assert Serve(setting, s1, [turns[n]]) == Serve(setting, TurnOn(setting, s1, turns[n]), []);
  }

  /**
   The `i`-th accepted entry of `w` is `entry`, and it was dropped and counted,
   or drained by a successful write: then a confirmed frame carries it, unless
   the file it went to has been deleted since.
   */
  ghost predicate Settled(w: World, entry: Entry, i: nat) {
    && i < |w.fates| && i < |w.accepted| && w.accepted[i] == entry
    && (w.fates[i].Dropped? || (w.fates[i].Drained? && (i < w.floor || Placed(w.records, i))))
  }

  // ---------------------------------------------------------------------------------------------
  // The promise of `shutdown`
  // ---------------------------------------------------------------------------------------------

  /** The entries a message brings: its own, or those of its bundle. */
  function LogsOf(m: Message): seq<Data> {
    match m
    case Log(data) => [data]
    case Bundle(_, logs) => logs
    case _ => []
  }

  /** What the worker has when it comes to the `j`-th entry of a message: the message's definitions are in place. */
  function StateAt(setting: Setting, s: State, m: Message, j: nat, now: nat): State
    requires j <= |LogsOf(m)|
  {
    LogAll(setting, if m.Bundle? then DefineAll(s, m.definitions, now) else s, LogsOf(m)[..j], now)
  }

  lemma {:induction false} LogAllInTwo(setting: Setting, s: State, logs: seq<Data>, j: nat, now: nat)
    requires j <= |logs|
    ensures LogAll(setting, s, logs, now) == LogAll(setting, LogAll(setting, s, logs[..j], now), logs[j..], now)
    decreases logs
  {
    if j > 0 {
      assert logs[..j][1..] == logs[1..][..j - 1] && logs[j..] == logs[1..][j - 1..];
      LogAllInTwo(setting, LogOn(setting, s, logs[0], now), logs[1..], j - 1, now);
    } else {
      assert logs[..j] == [] && logs[j..] == logs;
    }
  }

  /** A message's turn, seen from its `j`-th entry. */
  lemma TurnThroughEntry(setting: Setting, s: State, m: Message, j: nat, now: nat, passes: Passes)
    requires j < |LogsOf(m)|
    ensures TurnOn(setting, s, Received(m, now, passes)) ==
      LogAll(setting, LogOn(setting, StateAt(setting, s, m, j, now), LogsOf(m)[j], now), LogsOf(m)[j + 1..], now)
  {
    var logs := LogsOf(m);
    if m.Bundle? {
      LogAllInTwo(setting, DefineAll(s, m.definitions, now), logs, j, now);
      assert logs[j..][0] == logs[j] && logs[j..][1..] == logs[j + 1..];
    } else {
      assert logs[..j] == [] && logs[j + 1..] == [];
    }
  }

  lemma DefineAllKeepsGood(s: State, ds: seq<(string, Definition)>, now: nat)
    requires Good(s)
    ensures Good(DefineAll(s, ds, now))
  {
    DefinesTouchNoFile(s, ds, now);
  }

  lemma StateAtIsGood(setting: Setting, s: State, m: Message, j: nat, now: nat)
    requires Good(s) && j <= |LogsOf(m)|
    ensures Good(StateAt(setting, s, m, j, now))
  {
    if m.Bundle? {
      DefineAllKeepsGood(s, m.definitions, now);
      LogAllGoesOn(setting, DefineAll(s, m.definitions, now), LogsOf(m)[..j], now);
    } else {
      LogAllGoesOn(setting, s, LogsOf(m)[..j], now);
    }
  }

  /** Turn `k` takes a message from the channel, before any stop signal, that brings at least `j + 1` entries. */
  ghost predicate Brings(turns: seq<Turn>, k: nat, j: nat) {
    && k < |turns| && turns[k].Received? && j < |LogsOf(turns[k].message)|
    && forall i :: 0 <= i <= k ==> !Stops(turns[i])
  }

  /** What the worker has when it comes to that entry. */
  ghost function Reached(setting: Setting, s: State, turns: seq<Turn>, k: nat, j: nat): State
    requires Brings(turns, k, j)
  {
    StateAt(setting, Serve(setting, s, turns[..k]), turns[k].message, j, turns[k].now)
  }

  /** The `j`-th entry that turn `k` brings has a defined name, and goes as `entry` into the file `id`. */
  ghost predicate Takes(setting: Setting, s: State, turns: seq<Turn>, k: nat, j: nat, id: FileId, entry: Entry) {
    && Brings(turns, k, j)
    && var data, definitions := LogsOf(turns[k].message)[j], Reached(setting, s, turns, k, j).definitions;
    data.name in definitions && Destined(setting, definitions[data.name], data, id, entry)
  }

  /** What the worker has once the entry is queued. */
  ghost function TakenOn(setting: Setting, s: State, turns: seq<Turn>, k: nat, j: nat): State
    requires Brings(turns, k, j)
  {
    LogOn(setting, Reached(setting, s, turns, k, j), LogsOf(turns[k].message)[j], turns[k].now)
  }

  /** What the worker has after the rest of that message. */
  ghost function TurnDone(setting: Setting, s: State, turns: seq<Turn>, k: nat, j: nat): State
    requires Brings(turns, k, j)
  {
    LogAll(setting, TakenOn(setting, s, turns, k, j), LogsOf(turns[k].message)[j + 1..], turns[k].now)
  }

  /** Serving up to an entry, taking it, and serving the rest. */
  lemma ServeThroughEntry(setting: Setting, s: State, turns: seq<Turn>, k: nat, j: nat)
    requires Brings(turns, k, j)
    ensures Serve(setting, s, turns) == Serve(setting, TurnDone(setting, s, turns, k, j), turns[k + 1..])
  {
    ServeInTwo(setting, s, turns, k);
    assert turns[k..][0] == turns[k];
    SuffixOfSuffix(turns, k, 1);
    TurnThroughEntry(setting, Serve(setting, s, turns[..k]), turns[k].message, j, turns[k].now, turns[k].passes);
  }

  /** From the moment the entry is queued, everything the worker does until it stops only adds to the histories. */
  lemma TakenGoesOn(setting: Setting, s: State, turns: seq<Turn>, k: nat, j: nat)
    requires Good(s) && Brings(turns, k, j)
    ensures Good(Reached(setting, s, turns, k, j))
    ensures GoesOn(TakenOn(setting, s, turns, k, j), Serve(setting, s, turns))
  {
    var at, taken := Reached(setting, s, turns, k, j), TakenOn(setting, s, turns, k, j);
    var done := TurnDone(setting, s, turns, k, j);
    var m, now := turns[k].message, turns[k].now;
    ServiceGoesOn(setting, s, turns[..k]);
    StateAtIsGood(setting, Serve(setting, s, turns[..k]), m, j, now);
    LogGoesOn(setting, at, LogsOf(m)[j], now);
    LogAllGoesOn(setting, taken, LogsOf(m)[j + 1..], now);
    ServiceGoesOn(setting, done, turns[k + 1..]);
    ServeThroughEntry(setting, s, turns, k, j);
    GoesFurther(taken, done, Serve(setting, s, turns));
  }

  /**
   The promise of `shutdown`: an entry taken from the channel before the stop
   signal, by itself or in a bundle, under a name that is defined by then, has
   by the worker's exit been written by a successful write or dropped and
   counted, if the writes of the final flush succeed before its deadline.
   */
  lemma StopSettlesEveryEntry(
      setting: Setting, s: State, turns: seq<Turn>, k: nat, j: nat, last: Passes, id: FileId, entry: Entry)
    requires Good(s) && Takes(setting, s, turns, k, j, id, entry)
    requires Completes(setting, Serve(setting, s, turns), last)
    ensures var final := FlushOn(setting, Serve(setting, s, turns), last);
      id in final.worlds && exists i :: Settled(final.worlds[id], entry, i)
  {
    var taken, stopped := TakenOn(setting, s, turns, k, j), Serve(setting, s, turns);
    var data := LogsOf(turns[k].message)[j];
    IsDestined(setting, Reached(setting, s, turns, k, j).definitions[data.name], data, id, entry);
    TakenGoesOn(setting, s, turns, k, j);
    LogIsAccepted(setting, Reached(setting, s, turns, k, j), LogsOf(turns[k].message)[j], turns[k].now);
    FlushSettles(setting, stopped, last, id, |taken.worlds[id].accepted| - 1);
  }

  /** The entry is accepted as the last, and still queued. */
  lemma AddIsAccepted(env: Env, w: World, header: Bytes, entry: Entry, now: nat)
    ensures var w' := Step(env, Step(env, w, Redefine(header)), Add(entry, now));
      && w'.accepted == w.accepted + [entry]
      && (HistoryInv(w) ==> |w'.fates| < |w'.accepted|)
  {
    ShedIsLeast(Opened(Step(env, w, Redefine(header)), now).logs + [entry]);
  }

  lemma LogIsAccepted(setting: Setting, s: State, data: Data, now: nat)
    requires data.name in s.definitions && AllSound(s.worlds)
    ensures var d := s.definitions[data.name];
      var id, s' := IdOf(setting, d, data), LogOn(setting, s, data, now);
      && id in s'.worlds && s'.worlds[id].accepted != []
      && s'.worlds[id].accepted[|s'.worlds[id].accepted| - 1] == EntryOf(setting, d, data)
      && |s'.worlds[id].fates| < |s'.worlds[id].accepted|
  {
    var d := s.definitions[data.name];
    var id := IdOf(setting, d, data);
    WorldOfIsSound(setting, s, id, d.header);
    AddIsAccepted(setting.env, WorldOf(setting, s, id, d.header), d.header, EntryOf(setting, d, data), now);
  }

  /** A flush that succeeds settles every entry any file has accepted and no restart has lost. */
  lemma FlushSettles(setting: Setting, s: State, last: Passes, id: FileId, i: nat)
    requires Good(s) && id in s.worlds && i < |s.worlds[id].accepted| && Completes(setting, s, last)
    requires i < |s.worlds[id].fates| ==> !s.worlds[id].fates[i].Lost?
    ensures var final := FlushOn(setting, s, last);
      id in final.worlds && Settled(final.worlds[id], s.worlds[id].accepted[i], i)
  {
    var final := FlushOn(setting, s, last);
    FlushGoesOn(setting, s, last);
    FlushEmpties(setting, s, last);
    QueuedIsZeroExactly(final.worlds);
    assert Later(s.worlds[id], final.worlds[id]);
    EmptyQueueSettles(final.worlds[id], i);
  }

  lemma EmptyQueueSettles(w: World, i: nat)
    requires HistoryInv(w) && QueuedIn(w) == 0 && i < |w.accepted|
    requires i < |w.fates| ==> !w.fates[i].Lost?
    ensures Settled(w, w.accepted[i], i)
  {
  }
}
