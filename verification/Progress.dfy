/**
 When files are written: since when a file has been waiting, what a tick and a
 flush message do, and which files and definitions are idle
 (src/service.rs, `run`; src/write_to_file.rs, `LogFile::write_to_file`, `flush`;
 src/add_to_log.rs, `add_to_log`; src/clean_up.rs).
 */
module Progress {
  import opened Bytes
  import Reader
  import opened Encoder
  import opened LogFiles
  import opened History
  import opened Conservation
  import opened Messages
  import opened Service
  import Decoded
  import Recovery
  import Shutdown

  // ---------------------------------------------------------------------------------------------
  // Since when a file has been waiting, over runs of events
  // ---------------------------------------------------------------------------------------------

  function Pending(w: World): Option<nat> {
    if w.file.Some? then w.file.value.pendingSince else None
  }

  /** The time of the first entry since the queue was last empty. */
  ghost function FirstAdd(env: Env, start: World, events: seq<Event>): Option<nat>
    decreases |events|
  {
    if events == [] then None
    else
      var n := |events| - 1;
      var before, after := Run(env, start, events[..n]), Run(env, start, events);
      if QueuedIn(after) == 0 then None
      else if QueuedIn(before) > 0 then FirstAdd(env, start, events[..n])
      else if events[n].Add? then Some(events[n].now)
      else None
  }

  lemma {:induction false} RunLast(env: Env, w: World, events: seq<Event>)
    requires events != []
    ensures var n := |events| - 1; Run(env, w, events) == Step(env, Run(env, w, events[..n]), events[n])
    decreases |events|
  {
    var n := |events| - 1;
    if n > 0 {
      RunLast(env, Step(env, w, events[0]), events[1..]);
      assert events[..n][1..] == events[1..][..n - 1];
    } else {
      assert events[1..] == [] && events[..0] == [];
    }
  }

  lemma StepWaits(env: Env, w: World, e: Event)
    requires HistoryInv(w) && QueuedIn(Step(env, w, e)) > 0
    ensures Pending(Step(env, w, e)) == if QueuedIn(w) > 0 then Pending(w) else if e.Add? then Some(e.now) else None
    ensures QueuedIn(w) > 0 || e.Add?
  {
  }

  /** In every reachable state a file with queued entries has waited since the first of them was added. */
  lemma {:induction false} WaitsSinceFirstAdd(env: Env, header: Bytes, disk: Option<Bytes>, events: seq<Event>)
    ensures var w := Run(env, Start(header, disk), events);
      QueuedIn(w) > 0 ==> Pending(w).Some? && Pending(w) == FirstAdd(env, Start(header, disk), events)
    decreases |events|
  {
    if events != [] {
      var n, start := |events| - 1, Start(header, disk);
      WaitsSinceFirstAdd(env, header, disk, events[..n]);
      RunLast(env, start, events);
      StartHasHistory(header, disk);
      RunKeepsHistory(env, start, events[..n]);
      if QueuedIn(Run(env, start, events)) > 0 {
        StepWaits(env, Run(env, start, events[..n]), events[n]);
      }
    }
  }

  // ---------------------------------------------------------------------------------------------
  // What one turn does to one file
  // ---------------------------------------------------------------------------------------------

  /** The file was at most drawn from: nothing was added. */
  ghost predicate Drawn(w: World, w': World) {
    && w'.accepted == w.accepted
    && (QueuedIn(w') > 0 ==> QueuedIn(w) > 0 && Pending(w') == Pending(w))
    && (w'.file.Some? ==> w.file.Some? && w'.file.value.lastUse == w.file.value.lastUse)
  }

  /** The file was at most added to, at `now`: nothing was written. */
  ghost predicate Fed(w: World, w': World, now: nat) {
    && |w.accepted| <= |w'.accepted| && (w.file.Some? ==> w'.file.Some?)
    && (QueuedIn(w) > 0 ==> QueuedIn(w') > 0)
    && (QueuedIn(w') > 0 ==> Pending(w') == if QueuedIn(w) > 0 then Pending(w) else Some(now))
    && (|w'.accepted| > |w.accepted| ==> w'.file.Some? && w'.file.value.lastUse == now)
    && (|w'.accepted| == |w.accepted| && w'.file.Some? ==>
        w.file.Some? && w'.file.value.lastUse == w.file.value.lastUse)
  }

  /** The history of a file, also before the worker knows it. */
  function WorldAt(setting: Setting, s: State, id: FileId): World {
    if id in s.worlds then s.worlds[id] else Start([], setting.found(id))
  }

  ghost predicate AllDrawn(s: State, s': State) {
    s.worlds.Keys == s'.worlds.Keys && forall id :: id in s.worlds ==> Drawn(s.worlds[id], s'.worlds[id])
  }

  ghost predicate AllFed(setting: Setting, s: State, s': State, now: nat) {
    s.worlds.Keys <= s'.worlds.Keys &&
    forall id :: id in s'.worlds ==> Fed(WorldAt(setting, s, id), s'.worlds[id], now)
  }

  lemma DrawnTwice(a: State, b: State, c: State)
    requires AllDrawn(a, b) && AllDrawn(b, c)
    ensures AllDrawn(a, c)
  {
  }

  lemma FedTwice(setting: Setting, a: State, b: State, c: State, now: nat)
    requires AllFed(setting, a, b, now) && AllFed(setting, b, c, now)
    ensures AllFed(setting, a, c, now)
  {
    forall id | id in c.worlds ensures Fed(WorldAt(setting, a, id), c.worlds[id], now) {
      assert Fed(WorldAt(setting, b, id), c.worlds[id], now);
      if id in b.worlds {
        assert Fed(WorldAt(setting, a, id), b.worlds[id], now);
      }
    }
  }

  lemma StepDraws(env: Env, w: World, e: Event)
    requires e.Write? || e.CleanUp? || e.Delete? || (e.Restart? && w.file.None?)
    ensures Drawn(w, Step(env, w, e))
  {
  }

  lemma WriteDraws(setting: Setting, s: State, pass: Pass, flushing: bool)
    ensures AllDrawn(s, WriteOn(setting, s, pass, flushing))
  {
    forall id | id in s.worlds ensures Drawn(s.worlds[id], Written(setting, s, id, pass, flushing)) {
      StepDraws(setting.env, s.worlds[id], Write(AttemptOn(s, id, pass, flushing)));
    }
  }

  lemma {:induction false} PassesDraw(setting: Setting, s: State, passes: seq<Pass>)
    ensures AllDrawn(s, PassesOn(setting, s, passes))
    decreases passes
  {
    if passes != [] {
      var s1 := WriteOn(setting, s, passes[0], true);
      WriteDraws(setting, s, passes[0], true);
      PassesDraw(setting, s1, passes[1..]);
      DrawnTwice(s, s1, PassesOn(setting, s1, passes[1..]));
    }
  }

  lemma UndisturbedIsDrawn(w: World, w': World, now: nat)
    requires Undisturbed(w, w', now)
    ensures Drawn(w, w')
  {
  }

  lemma CleanUpDraws(setting: Setting, s: State, now: nat)
    requires Good(s)
    ensures AllDrawn(s, CleanUpOn(setting, s, now))
  {
    forall id | id in s.worlds ensures Drawn(s.worlds[id], CleanUpOn(setting, s, now).worlds[id]) {
      CleanUpSpares(setting, s, now, id);
      UndisturbedIsDrawn(s.worlds[id], CleanUpOn(setting, s, now).worlds[id], now);
    }
  }

  lemma DeleteDraws(setting: Setting, s: State, deleted: set<FileId>)
    ensures AllDrawn(s, DeleteOn(setting, s, deleted))
  {
    forall id | id in s.worlds ensures Drawn(s.worlds[id], Step(setting.env, s.worlds[id], Delete)) {
      StepDraws(setting.env, s.worlds[id], Delete);
    }
  }

  lemma AddFeeds(env: Env, w: World, header: Bytes, entry: Entry, now: nat)
    requires HistoryInv(w)
    ensures Fed(w, Step(env, Step(env, w, Redefine(header)), Add(entry, now)), now)
  {
    var w1 := Step(env, w, Redefine(header));
    ShedIsLeast(Opened(w1, now).logs + [entry]);
  }

  lemma LogFeeds(setting: Setting, s: State, data: Data, now: nat)
    requires Good(s)
    ensures AllFed(setting, s, LogOn(setting, s, data, now), now)
  {
    if data.name in s.definitions {
      var d := s.definitions[data.name];
      var id, entry := IdOf(setting, d, data), EntryOf(setting, d, data);
      StartHasHistory(d.header, setting.found(id));
      AddFeeds(setting.env, WorldOf(setting, s, id, d.header), d.header, entry, now);
    }
  }

  lemma {:induction false} LogAllFeeds(setting: Setting, s: State, logs: seq<Data>, now: nat)
    requires Good(s)
    ensures AllFed(setting, s, LogAll(setting, s, logs, now), now)
    decreases logs
  {
    if logs != [] {
      var s1 := LogOn(setting, s, logs[0], now);
      LogFeeds(setting, s, logs[0], now);
      LogGoesOn(setting, s, logs[0], now);
      LogAllFeeds(setting, s1, logs[1..], now);
      FedTwice(setting, s, s1, LogAll(setting, s1, logs[1..], now), now);
    }
  }

  lemma SameIsDrawn(s: State, s': State)
    requires s'.worlds == s.worlds
    ensures AllDrawn(s, s')
  {
  }

  lemma MessageMoves(setting: Setting, s: State, m: Message, now: nat, passes: Passes)
    requires Good(s)
    ensures var s' := MessageOn(setting, s, m, now, passes); AllDrawn(s, s') || AllFed(setting, s, s', now)
  {
    match m {
      case Log(data) => LogFeeds(setting, s, data, now);
      case Define(name, d) => SameIsDrawn(s, DefineOn(s, name, d, now));
      case Bundle(ds, logs) =>
        DefinesTouchNoFile(s, ds, now);
        DefineAllKeepsGood(s, ds, now);
        LogAllFeeds(setting, DefineAll(s, ds, now), logs, now);
        FedFrom(setting, DefineAll(s, ds, now), s, LogAll(setting, DefineAll(s, ds, now), logs, now), now);
      case Flush =>
        var n := FlushIsPasses(setting, s, passes);
        PassesDraw(setting, s, passes[..n]);
      case _ => SameIsDrawn(s, s);
    }
  }

  lemma FedFrom(setting: Setting, a: State, b: State, c: State, now: nat)
    requires AllFed(setting, a, c, now) && a.worlds == b.worlds
    ensures AllFed(setting, b, c, now)
  {
    forall id | id in c.worlds ensures Fed(WorldAt(setting, b, id), c.worlds[id], now) {
      assert WorldAt(setting, a, id) == WorldAt(setting, b, id);
    }
  }

  lemma TurnMoves(setting: Setting, s: State, turn: Turn)
    requires Good(s)
    ensures var s' := TurnOn(setting, s, turn);
      AllDrawn(s, s') || (turn.Received? && AllFed(setting, s, s', turn.now))
  {
    match turn {
      case WriterTick(pass) => WriteDraws(setting, s, pass, false);
      case CleanupTick(now, deleted) =>
        var cleaned := CleanUpOn(setting, s, now);
        CleanUpDraws(setting, s, now);
        DeleteDraws(setting, cleaned, deleted);
        DrawnTwice(s, cleaned, DeleteOn(setting, cleaned, deleted));
      case Received(m, now, passes) => MessageMoves(setting, s, m, now, passes);
    }
  }

  // ---------------------------------------------------------------------------------------------
  // Since when a file has been waiting, over the worker's turns
  // ---------------------------------------------------------------------------------------------

  function Queue(s: State, id: FileId): nat {
    if id in s.worlds then QueuedIn(s.worlds[id]) else 0
  }

  ghost predicate Running(turns: seq<Turn>) {
    forall i :: 0 <= i < |turns| ==> !Stops(turns[i])
  }

  /** The worker's state after its first `k` turns. */
  ghost function After(setting: Setting, s: State, turns: seq<Turn>): nat -> State {
    (k: nat) => if k <= |turns| then Serve(setting, s, turns[..k]) else s
  }

  /** The file's queue was empty before turn `k0`, and never since. */
  ghost predicate WaitsFrom(at: nat -> State, n: nat, id: FileId, k0: nat) {
    k0 < n && Queue(at(k0), id) == 0 && forall k :: k0 < k <= n ==> Queue(at(k), id) > 0
  }

  /** What a turn does to the waiting of a file. */
  ghost predicate TurnWaits(before: State, turn: Turn, after: State, id: FileId) {
    Queue(after, id) > 0 ==>
      if Queue(before, id) > 0 then Pending(after.worlds[id]) == Pending(before.worlds[id])
      else turn.Received? && Pending(after.worlds[id]) == Some(turn.now)
  }

  /** What a turn does to the last use of a file. */
  ghost predicate TurnUses(before: State, turn: Turn, after: State, id: FileId) {
    InMemory(after, id) ==>
      if Accepted(after, id) > Accepted(before, id) then turn.Received? && LastUse(after, id) == turn.now
      else Accepted(after, id) == Accepted(before, id) ==>
        InMemory(before, id) && LastUse(after, id) == LastUse(before, id)
  }

  function Accepted(s: State, id: FileId): nat {
    if id in s.worlds then |s.worlds[id].accepted| else 0
  }

  predicate InMemory(s: State, id: FileId) {
    id in s.worlds && s.worlds[id].file.Some?
  }

  function LastUse(s: State, id: FileId): nat
    requires InMemory(s, id)
  {
    s.worlds[id].file.value.lastUse
  }

  lemma TurnMovesFile(setting: Setting, s: State, turn: Turn, id: FileId)
    requires Good(s)
    ensures TurnWaits(s, turn, TurnOn(setting, s, turn), id) && TurnUses(s, turn, TurnOn(setting, s, turn), id)
  {
    TurnMoves(setting, s, turn);
    DrawnOrFed(setting, s, turn, TurnOn(setting, s, turn), id);
  }

  lemma DrawnOrFed(setting: Setting, s: State, turn: Turn, s': State, id: FileId)
    requires AllDrawn(s, s') || (turn.Received? && AllFed(setting, s, s', turn.now))
    ensures TurnWaits(s, turn, s', id) && TurnUses(s, turn, s', id)
  {
    if id in s'.worlds {
      if AllDrawn(s, s') {
        assert Drawn(s.worlds[id], s'.worlds[id]);
      } else {
        assert Fed(WorldAt(setting, s, id), s'.worlds[id], turn.now);
      }
    }
  }

  lemma EveryTurnMoves(setting: Setting, s: State, turns: seq<Turn>, id: FileId)
    requires Good(s) && Running(turns)
    ensures var at := After(setting, s, turns);
      forall k :: 0 <= k < |turns| ==>
        TurnWaits(at(k), turns[k], at(k + 1), id) && TurnUses(at(k), turns[k], at(k + 1), id)
  {
    var at := After(setting, s, turns);
    forall k | 0 <= k < |turns|
      ensures TurnWaits(at(k), turns[k], at(k + 1), id) && TurnUses(at(k), turns[k], at(k + 1), id)
    {
      NextState(setting, s, turns, k);
      TurnMovesFile(setting, at(k), turns[k], id);
    }
  }

  lemma NextState(setting: Setting, s: State, turns: seq<Turn>, k: nat)
    requires Good(s) && Running(turns) && k < |turns|
    ensures Good(Serve(setting, s, turns[..k]))
    ensures Serve(setting, s, turns[..k + 1]) == TurnOn(setting, Serve(setting, s, turns[..k]), turns[k])
  {
    ServiceGoesOn(setting, s, turns[..k]);
    assert turns[..k + 1] == turns[..k] + [turns[k]];
    OneMoreTurn(setting, s, turns[..k], turns[k]);
  }

  lemma {:induction false} WaitsAlong(at: nat -> State, turns: seq<Turn>, n: nat, id: FileId, k0: nat)
    requires n <= |turns| && WaitsFrom(at, n, id, k0)
    requires forall k :: 0 <= k < n ==> TurnWaits(at(k), turns[k], at(k + 1), id)
    ensures id in at(n).worlds && turns[k0].Received? && Pending(at(n).worlds[id]) == Some(turns[k0].now)
    decreases n
  {
    assert TurnWaits(at(n - 1), turns[n - 1], at(n - 1 + 1), id);
    if k0 < n - 1 {
      WaitsAlong(at, turns, n - 1, id, k0);
    }
  }

  /** A file waits since the turn that put the first entry into its empty queue. */
  lemma WaitsSinceTurn(setting: Setting, s: State, turns: seq<Turn>, id: FileId, k0: nat)
    requires Good(s) && Running(turns) && WaitsFrom(After(setting, s, turns), |turns|, id, k0)
    ensures id in Serve(setting, s, turns).worlds && turns[k0].Received?
    ensures Pending(Serve(setting, s, turns).worlds[id]) == Some(turns[k0].now)
  {
    EveryTurnMoves(setting, s, turns, id);
    WaitsAlong(After(setting, s, turns), turns, |turns|, id, k0);
    assert turns[..|turns|] == turns;
  }

  /** A successful attempt that is due takes entries from the front of the queue; one that is not due does nothing. */
  lemma AttemptTakes(setting: Setting, s: State, id: FileId, pass: Pass, since: nat)
    requires id in s.worlds && id.name in s.definitions && pass.fault(id) == NoFault
    requires QueuedIn(s.worlds[id]) > 0 && Pending(s.worlds[id]) == Some(since)
    ensures var w, w' := s.worlds[id], Written(setting, s, id, pass, false);
      var interval := s.definitions[id.name].interval;
      if interval == 0 || since + interval <= pass.now then TookSome(w, w') else w' == w
  {
  }

  /** At least one entry left the queue, from its front, by a write. */
  ghost predicate TookSome(w: World, w': World) {
    && w.file.Some? && w'.file.Some? && HasContent(w'.disk)
    && |w'.file.value.logs| < |w.file.value.logs| && |w'.records| == |w.records| + 1
    && var n := |w.file.value.logs| - |w'.file.value.logs|;
    w'.file.value.logs == w.file.value.logs[n..] && w'.fates == w.fates + Repeat(Drained, n)
  }

  lemma EmptyIsLeft(setting: Setting, s: State, id: FileId, pass: Pass, flushing: bool)
    requires id in s.worlds && QueuedIn(s.worlds[id]) == 0
    ensures var w, w' := s.worlds[id], Written(setting, s, id, pass, flushing);
      w'.disk == w.disk && w'.records == w.records && QueuedIn(w') == 0
  {
  }

  /**
   What a tick writes, by the interval of the file's definition: a file whose
   queue has not been empty since turn `k0` is written exactly if that turn was
   at least the interval ago; a file that was not has its disk and queue as before.
   */
  lemma TickWritesExactly(setting: Setting, s: State, turns: seq<Turn>, id: FileId, k0: nat, pass: Pass)
    requires Good(s) && Running(turns) && WaitsFrom(After(setting, s, turns), |turns|, id, k0)
    requires pass.fault(id) == NoFault
    ensures turns[k0].Received?
    ensures var before, after := Serve(setting, s, turns), Serve(setting, s, turns + [WriterTick(pass)]);
      && id in before.worlds && id in after.worlds && id.name in before.definitions
      && var interval := before.definitions[id.name].interval;
      if interval == 0 || turns[k0].now + interval <= pass.now then TookSome(before.worlds[id], after.worlds[id])
      else after.worlds[id] == before.worlds[id]
  {
    var before := Serve(setting, s, turns);
    ServiceGoesOn(setting, s, turns);
    WaitsSinceTurn(setting, s, turns, id, k0);
    assert turns[..|turns|] == turns;
    OneMoreTurn(setting, s, turns, WriterTick(pass));
    AttemptTakes(setting, before, id, pass, turns[k0].now);
  }

  /**
   And what it writes: one block at the end of the decoded file, with the header
   if the file was empty, the report of drops as the file's definition formats it
   at the time of the tick, and the entries that left the queue.
   */
  lemma TickSays(setting: Setting, s: State, turns: seq<Turn>, id: FileId, k0: nat, pass: Pass)
    requires setting.env.codec.Lossless() && Shutdown.OnDisk(setting, s) && Good(s) && Running(turns)
    requires Shutdown.BenignTurns(setting, s, turns + [WriterTick(pass)])
    requires WaitsFrom(After(setting, s, turns), |turns|, id, k0) && pass.fault(id) == NoFault
    requires var before := Serve(setting, s, turns);
      && turns[k0].Received? && id.name in before.definitions
      && var interval := before.definitions[id.name].interval;
      interval == 0 || turns[k0].now + interval <= pass.now
    ensures var before, after := Serve(setting, s, turns), Serve(setting, s, turns + [WriterTick(pass)]);
      id in before.worlds && id in after.worlds &&
      WritesBlock(setting, before.worlds[id], after.worlds[id], before.definitions[id.name].layout, pass.now)
  {
    var before := Serve(setting, s, turns);
    TickWritesExactly(setting, s, turns, id, k0, pass);
    OneMoreTurn(setting, s, turns, WriterTick(pass));
    WaitsSinceTurn(setting, s, turns, id, k0);
    TickIsBenign(setting, s, turns, pass);
    AttemptSays(setting, before, id, pass, turns[k0].now);
  }

  /** One block more, and exactly what it says. */
  ghost predicate WritesBlock(setting: Setting, w: World, w': World, layout: Layout, now: nat) {
    && w.file.Some? && w'.file.Some? && w'.disk.Some?
    && var f, left := w.file.value, w'.file.value.logs;
    var blocks := Reader.ReadFile(setting.env.codec, w'.disk.value);
    && blocks.Some? && |blocks.value| == |w.records| + 1 && |left| < |f.logs|
    && var head := if !HasContent(w.disk) && f.header != [] then Some(f.header) else None;
    blocks.value[|w.records|] ==
      Decoded.BlockOpening(setting.env, head, layout, now, f.dropped) + Lines(f.logs[..|f.logs| - |left|])
  }

  lemma AttemptSays(setting: Setting, s: State, id: FileId, pass: Pass, since: nat)
    requires setting.env.codec.Lossless() && Shutdown.OnDisk(setting, s)
    requires Shutdown.BenignPass(setting, s, pass, false)
    requires id in s.worlds && id.name in s.definitions && pass.fault(id) == NoFault
    requires QueuedIn(s.worlds[id]) > 0 && Pending(s.worlds[id]) == Some(since)
    requires var interval := s.definitions[id.name].interval; interval == 0 || since + interval <= pass.now
    ensures WritesBlock(
      setting, s.worlds[id], Written(setting, s, id, pass, false), s.definitions[id.name].layout, pass.now)
  {
    var a := AttemptOn(s, id, pass, false);
    assert Due(s.worlds[id].file.value, a) && a.fault.NoFault?;
    assert a.layout == s.definitions[id.name].layout && a.now == pass.now;
    DueWritesBlock(setting, s.worlds[id], a);
  }

  lemma DueWritesBlock(setting: Setting, w: World, a: Attempt)
    requires setting.env.codec.Lossless() && Recovery.Inv(setting.env, w) && Recovery.Benign(setting.env, w, Write(a))
    requires w.file.Some? && Due(w.file.value, a) && a.fault.NoFault?
    ensures WritesBlock(setting, w, Step(setting.env, w, Write(a)), a.layout, a.now)
  {
    Decoded.SuccessSays(setting.env, w, a);
  }

  lemma TickIsBenign(setting: Setting, s: State, turns: seq<Turn>, pass: Pass)
    requires setting.env.codec.Lossless() && Shutdown.OnDisk(setting, s) && Good(s) && Running(turns)
    requires Shutdown.BenignTurns(setting, s, turns + [WriterTick(pass)])
    ensures Shutdown.OnDisk(setting, Serve(setting, s, turns))
    ensures Shutdown.BenignPass(setting, Serve(setting, s, turns), pass, false)
  {
    var all, k := turns + [WriterTick(pass)], |turns|;
    assert all[..k] == turns && all[k..] == [WriterTick(pass)];
    Shutdown.BenignInTwo(setting, s, all, k);
    Shutdown.ServiceCarries(setting, s, turns);
    assert Shutdown.BenignTurn(setting, Serve(setting, s, turns), all[k..][0]);
  }

  /** A tick leaves the files with nothing queued as they are on disk. */
  lemma TickLeavesEmpty(setting: Setting, s: State, turns: seq<Turn>, id: FileId, pass: Pass)
    requires Running(turns) && id in Serve(setting, s, turns).worlds && Queue(Serve(setting, s, turns), id) == 0
    ensures var before, after := Serve(setting, s, turns), Serve(setting, s, turns + [WriterTick(pass)]);
      && id in after.worlds && Queue(after, id) == 0
      && after.worlds[id].disk == before.worlds[id].disk && after.worlds[id].records == before.worlds[id].records
  {
    OneMoreTurn(setting, s, turns, WriterTick(pass));
    EmptyIsLeft(setting, Serve(setting, s, turns), id, pass, false);
  }

  lemma OneMoreTurn(setting: Setting, s: State, turns: seq<Turn>, turn: Turn)
    requires Running(turns) && !Stops(turn)
    ensures Running(turns + [turn])
    ensures Serve(setting, s, turns + [turn]) == TurnOn(setting, Serve(setting, s, turns), turn)
  {
    assert (turns + [turn])[..|turns|] == turns;
    ServeLast(setting, s, turns + [turn]);
  }

  // ---------------------------------------------------------------------------------------------
  // Idle files
  // ---------------------------------------------------------------------------------------------

  /** Turn `k0` is the last that brought the file an entry. */
  ghost predicate LastUsed(at: nat -> State, n: nat, id: FileId, k0: nat) {
    && k0 < n && Accepted(at(k0), id) < Accepted(at(k0 + 1), id)
    && forall k :: k0 < k <= n ==> Accepted(at(k), id) == Accepted(at(k0 + 1), id)
  }

  lemma {:induction false} UsedAlong(at: nat -> State, turns: seq<Turn>, n: nat, id: FileId, k0: nat)
    requires n <= |turns| && LastUsed(at, n, id, k0) && InMemory(at(n), id)
    requires forall k :: 0 <= k < n ==> TurnUses(at(k), turns[k], at(k + 1), id)
    ensures turns[k0].Received? && LastUse(at(n), id) == turns[k0].now
    decreases n
  {
    assert TurnUses(at(n - 1), turns[n - 1], at(n - 1 + 1), id);
    if k0 < n - 1 {
      UsedAlong(at, turns, n - 1, id, k0);
    }
  }

  lemma LastUseIs(setting: Setting, s: State, turns: seq<Turn>, id: FileId, k0: nat)
    requires Good(s) && Running(turns) && LastUsed(After(setting, s, turns), |turns|, id, k0)
    requires InMemory(Serve(setting, s, turns), id)
    ensures turns[k0].Received? && LastUse(Serve(setting, s, turns), id) == turns[k0].now
  {
    EveryTurnMoves(setting, s, turns, id);
    assert turns[..|turns|] == turns;
    UsedAlong(After(setting, s, turns), turns, |turns|, id, k0);
  }

  /**
   What the cleanup takes out of memory: a file stays exactly if it has entries
   queued or was brought one less than six hundred seconds ago.
   */
  lemma CleanUpTickExactly(
      setting: Setting, s: State, turns: seq<Turn>, id: FileId, k0: nat, now: nat, deleted: set<FileId>)
    requires Good(s) && Running(turns) && LastUsed(After(setting, s, turns), |turns|, id, k0)
    requires InMemory(Serve(setting, s, turns), id)
    ensures turns[k0].Received?
    ensures var before, after := Serve(setting, s, turns), Serve(setting, s, turns + [CleanupTick(now, deleted)]);
      InMemory(after, id) <==> Queue(before, id) > 0 || now < turns[k0].now + 600
  {
    var before := Serve(setting, s, turns);
    ServiceGoesOn(setting, s, turns);
    LastUseIs(setting, s, turns, id, k0);
    OneMoreTurn(setting, s, turns, CleanupTick(now, deleted));
    CleanUpSpares(setting, before, now, id);
    StaysInMemory(setting, CleanUpOn(setting, before, now), deleted, id);
    UndisturbedExactly(before.worlds[id], CleanUpOn(setting, before, now).worlds[id], now);
  }

  lemma StaysInMemory(setting: Setting, s: State, deleted: set<FileId>, id: FileId)
    ensures InMemory(DeleteOn(setting, s, deleted), id) <==> InMemory(s, id)
  {
  }

  lemma UndisturbedExactly(w: World, w': World, now: nat)
    requires Undisturbed(w, w', now) && w.file.Some?
    ensures w'.file.Some? <==> QueuedIn(w) > 0 || now < w.file.value.lastUse + 600
  {
  }

  // ---------------------------------------------------------------------------------------------
  // A flush message
  // ---------------------------------------------------------------------------------------------

  lemma SettledStays(w: World, w': World, entry: Entry, i: nat)
    requires Later(w, w') && HistoryInv(w') && Settled(w, entry, i)
    ensures Settled(w', entry, i)
  {
    assert w'.fates[i] == w.fates[i] && w'.accepted[i] == w.accepted[i];
  }

  /** Turn `k` takes a flush whose writes succeed before its deadline. */
  ghost predicate Flushes(setting: Setting, s: State, turns: seq<Turn>, k: nat) {
    && k < |turns| && Running(turns[..k + 1])
    && turns[k].Received? && turns[k].message == Message.Flush
    && Completes(setting, Serve(setting, s, turns[..k]), turns[k].passes)
  }

  lemma FlushTurn(setting: Setting, s: State, turns: seq<Turn>, k: nat)
    requires Flushes(setting, s, turns, k)
    ensures Serve(setting, s, turns[..k + 1]) == FlushOn(setting, Serve(setting, s, turns[..k]), turns[k].passes)
  {
    assert turns[..k + 1] == turns[..k] + [turns[k]];
    PrefixRuns(turns, k);
    assert turns[..k + 1][k] == turns[k];
    OneMoreTurn(setting, s, turns[..k], turns[k]);
  }

  /** What a flush message does, whatever the intervals: after its turn every queue is empty. */
  lemma FlushMessageEmpties(setting: Setting, s: State, turns: seq<Turn>, k: nat, id: FileId)
    requires Flushes(setting, s, turns, k)
    ensures Queue(Serve(setting, s, turns[..k + 1]), id) == 0
  {
    FlushTurn(setting, s, turns, k);
    FlushEmpties(setting, Serve(setting, s, turns[..k]), turns[k].passes);
    QueuedIsZeroExactly(Serve(setting, s, turns[..k + 1]).worlds);
  }

  /**
   And every entry accepted ahead of it and not lost to a restart has been
   written or dropped and counted, then and over all the turns that follow.
   */
  lemma FlushMessageSettles(setting: Setting, s: State, turns: seq<Turn>, k: nat, id: FileId, i: nat)
    requires Good(s) && Flushes(setting, s, turns, k)
    requires AcceptedNotLost(Serve(setting, s, turns[..k]), id, i)
    ensures var entry := Serve(setting, s, turns[..k]).worlds[id].accepted[i];
      SettledIn(Serve(setting, s, turns[..k + 1]), id, entry, i) && SettledIn(Serve(setting, s, turns), id, entry, i)
  {
    var before := Serve(setting, s, turns[..k]);
    FlushTurn(setting, s, turns, k);
    PrefixRuns(turns, k);
    ServiceGoesOn(setting, s, turns[..k]);
    FlushSettles(setting, before, turns[k].passes, id, i);
    SettledEverAfter(setting, s, turns, k + 1, id, before.worlds[id].accepted[i], i);
  }

  lemma PrefixRuns(turns: seq<Turn>, k: nat)
    requires k < |turns| && Running(turns[..k + 1])
    ensures Running(turns[..k])
  {
    assert forall i :: 0 <= i < k ==> turns[..k][i] == turns[..k + 1][i];
  }

  ghost predicate AcceptedNotLost(s: State, id: FileId, i: nat) {
    id in s.worlds && i < |s.worlds[id].accepted| && (i < |s.worlds[id].fates| ==> !s.worlds[id].fates[i].Lost?)
  }

  ghost predicate SettledIn(s: State, id: FileId, entry: Entry, i: nat) {
    id in s.worlds && Settled(s.worlds[id], entry, i)
  }

  lemma SettledEverAfter(setting: Setting, s: State, turns: seq<Turn>, k: nat, id: FileId, entry: Entry, i: nat)
    requires Good(s) && k <= |turns| && Running(turns[..k]) && SettledIn(Serve(setting, s, turns[..k]), id, entry, i)
    ensures SettledIn(Serve(setting, s, turns), id, entry, i)
  {
    var at := Serve(setting, s, turns[..k]);
    assert forall j :: 0 <= j < k ==> turns[..k][j] == turns[j];
    ServeInTwo(setting, s, turns, k);
    ServiceGoesOn(setting, s, turns[..k]);
    ServiceGoesOn(setting, at, turns[k..]);
    SettledStays(at.worlds[id], Serve(setting, s, turns).worlds[id], entry, i);
  }

  lemma FlushIsBenign(setting: Setting, s: State, turns: seq<Turn>, k: nat)
    requires Flushes(setting, s, turns, k) && Shutdown.BenignTurns(setting, s, turns)
    ensures Shutdown.BenignTurns(setting, s, turns[..k])
    ensures Shutdown.BenignFlush(setting, Serve(setting, s, turns[..k]), turns[k].passes)
  {
    PrefixRuns(turns, k);
    assert forall i :: 0 <= i < k ==> turns[..k][i] == turns[i];
    Shutdown.BenignInTwo(setting, s, turns, k);
    assert turns[k..][0] == turns[k] && turns[..k + 1][k] == turns[k];
    assert Shutdown.BenignTurn(setting, Serve(setting, s, turns[..k]), turns[k]);
  }

  /** And can be read back right after that turn, if it was taken by this worker and the environment is benign. */
  lemma FlushMessageWrites(
      setting: Setting, s: State, turns: seq<Turn>, k: nat, m: nat, j: nat, id: FileId, entry: Entry)
    requires setting.env.codec.Lossless() && Shutdown.OnDisk(setting, s) && Good(s)
    requires Flushes(setting, s, turns, k) && Takes(setting, s, turns[..k], m, j, id, entry)
    requires Shutdown.BenignTurns(setting, s, turns)
    ensures var after := Serve(setting, s, turns[..k + 1]);
      id in after.worlds && exists i :: Shutdown.Accounted(setting.env, after.worlds[id], entry, i)
  {
    FlushTurn(setting, s, turns, k);
    FlushIsBenign(setting, s, turns, k);
    Shutdown.StopLeavesEntriesReadable(setting, s, turns[..k], m, j, turns[k].passes, id, entry);
  }

  /** The stop signal ends the loop: whatever else is still to come is not taken. */
  lemma StopEnds(setting: Setting, s: State, turns: seq<Turn>, k: nat, now: nat, passes: Passes)
    requires k < |turns| && turns[k] == Received(Message.Stop, now, passes) && Running(turns[..k])
    ensures Serve(setting, s, turns) == Serve(setting, s, turns[..k])
  {
    assert forall i :: 0 <= i < k ==> turns[..k][i] == turns[i];
    ServeInTwo(setting, s, turns, k);
    assert turns[k..][0] == turns[k];
  }

  // ---------------------------------------------------------------------------------------------
  // Definitions
  // ---------------------------------------------------------------------------------------------

  /** A definition takes effect as it was sent, with its turn. */
  lemma DefinitionTakesEffect(
      setting: Setting, s: State, turns: seq<Turn>, name: string, d: Definition, now: nat, passes: Passes)
    requires Running(turns)
    ensures var after := Serve(setting, s, turns + [Received(Define(name, d), now, passes)]);
      && name in after.definitions
      && var e := after.definitions[name];
      e.layout == d.layout && e.header == d.header && e.interval == d.interval && e.autoRemove == d.autoRemove
  {
    OneMoreTurn(setting, s, turns, Received(Define(name, d), now, passes));
  }

  /** The last definition of a bundle for a name. */
  function LastOf(ds: seq<(string, Definition)>, name: string): Option<Definition> {
    if ds == [] then None
    else if ds[|ds| - 1].0 == name then Some(ds[|ds| - 1].1)
    else LastOf(ds[..|ds| - 1], name)
  }

  lemma {:induction false} LastOfRest(ds: seq<(string, Definition)>, name: string)
    requires ds != []
    ensures LastOf(ds, name) ==
      if LastOf(ds[1..], name).Some? then LastOf(ds[1..], name) else if ds[0].0 == name then Some(ds[0].1) else None
    decreases |ds|
  {
    var n := |ds| - 1;
    if n > 0 && ds[n].0 != name {
      LastOfRest(ds[..n], name);
      assert ds[..n][1..] == ds[1..][..n - 1];
    }
    assert n == 0 ==> ds[..0] == [] && ds[1..] == [];
  }

  /** A bundle's definitions take effect as they were sent, the last for a name; other names keep theirs. */
  lemma {:induction false} BundleDefines(s: State, ds: seq<(string, Definition)>, now: nat, name: string)
    ensures var after := DefineAll(s, ds, now);
      match LastOf(ds, name)
      case None => name in after.definitions <==> name in s.definitions
      case Some(d) =>
        name in after.definitions && after.definitions[name] == d.(lastUse := after.definitions[name].lastUse)
    ensures LastOf(ds, name).None? && name in s.definitions ==>
      name in DefineAll(s, ds, now).definitions && DefineAll(s, ds, now).definitions[name] == s.definitions[name]
    decreases ds
  {
    if ds != [] {
      LastOfRest(ds, name);
      BundleDefines(DefineOn(s, ds[0].0, ds[0].1, now), ds[1..], now, name);
    }
  }
}
