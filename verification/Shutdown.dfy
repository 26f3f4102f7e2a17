/**
 From the channel to the decoded file: an entry the worker took before it was
 told to stop stands, once the worker has exited, on a line of its own in what
 a reader decodes (src/service.rs, `run`; src/write_to_file.rs, `flush`).
 */
module Shutdown {
  import opened Bytes
  import Decoded
  import opened Encoder
  import opened LogFiles
  import opened History
  import opened Recovery
  import opened Messages
  import opened Service

  // ---------------------------------------------------------------------------------------------
  // The disks over the worker's life
  // ---------------------------------------------------------------------------------------------

  /** A file with nothing queued does not end in a broken frame. */
  ghost predicate Tidy(w: World) {
    QueuedIn(w) == 0 ==> w.torn == []
  }

  /** Every file on disk is what its history says; files without a history are new. */
  ghost predicate OnDisk(setting: Setting, s: State) {
    && (forall id :: id in s.worlds ==> Inv(setting.env, s.worlds[id]))
    && (forall id :: !HasContent(setting.found(id)))
  }

  /** Once this worker has queued something for a file, the file stays tidy. */
  ghost predicate StaysTidy(before: map<FileId, World>, after: map<FileId, World>) {
    forall id :: id in before && Tidy(before[id]) ==> id in after && Tidy(after[id])
  }

  ghost predicate Carried(setting: Setting, s: State, s': State) {
    OnDisk(setting, s') && StaysTidy(s.worlds, s'.worlds)
  }

  /** What the environment must grant a pass, for every file it writes. */
  ghost predicate BenignPass(setting: Setting, s: State, pass: Pass, flushing: bool) {
    forall id :: id in s.worlds ==> Benign(setting.env, s.worlds[id], Write(AttemptOn(s, id, pass, flushing)))
  }

  /** The same for passes one after the other. */
  ghost predicate BenignFlush(setting: Setting, s: State, passes: seq<Pass>)
    decreases passes
  {
    passes == [] ||
    (BenignPass(setting, s, passes[0], true) && BenignFlush(setting, WriteOn(setting, s, passes[0], true), passes[1..]))
  }

  ghost predicate BenignTurn(setting: Setting, s: State, turn: Turn) {
    match turn
    case WriterTick(pass) => BenignPass(setting, s, pass, false)
    case CleanupTick(_, _) => true
    case Received(m, _, passes) => m.Flush? ==> BenignFlush(setting, s, passes)
  }

  ghost predicate BenignTurns(setting: Setting, s: State, turns: seq<Turn>)
    decreases turns
  {
    turns == [] || Stops(turns[0]) ||
    (BenignTurn(setting, s, turns[0]) && BenignTurns(setting, TurnOn(setting, s, turns[0]), turns[1..]))
  }

  lemma CarriedOn(setting: Setting, a: State, b: State, c: State)
    requires Carried(setting, a, b) && Carried(setting, b, c)
    ensures Carried(setting, a, c)
  {
  }

  lemma StepIsTidy(env: Env, w: World, e: Event)
    requires Inv(env, w) && Inv(env, Step(env, w, e)) && Tidy(w) && (e.Restart? ==> w.file.None?)
    ensures Tidy(Step(env, w, e))
  {
    var w' := Step(env, w, e);
    assert w'.file.Some? && w'.file.value.logs == [] ==> w'.file.value.verified;
  }

  lemma StepCarries(env: Env, w: World, e: Event)
    requires env.codec.Lossless() && Inv(env, w) && Benign(env, w, e) && (e.Restart? ==> w.file.None?)
    ensures Inv(env, Step(env, w, e)) && (Tidy(w) ==> Tidy(Step(env, w, e)))
  {
    StepKeepsInv(env, w, e);
    if Tidy(w) {
      StepIsTidy(env, w, e);
    }
  }

  lemma WriteCarries(setting: Setting, s: State, pass: Pass, flushing: bool)
    requires setting.env.codec.Lossless() && OnDisk(setting, s) && BenignPass(setting, s, pass, flushing)
    ensures Carried(setting, s, WriteOn(setting, s, pass, flushing))
  {
    forall id | id in s.worlds
      ensures var w' := Written(setting, s, id, pass, flushing);
        Inv(setting.env, w') && (Tidy(s.worlds[id]) ==> Tidy(w'))
    {
      StepCarries(setting.env, s.worlds[id], Write(AttemptOn(s, id, pass, flushing)));
    }
  }

  lemma {:induction false} PassesCarry(setting: Setting, s: State, passes: seq<Pass>, n: nat)
    requires setting.env.codec.Lossless() && OnDisk(setting, s) && BenignFlush(setting, s, passes) && n <= |passes|
    ensures Carried(setting, s, PassesOn(setting, s, passes[..n]))
    decreases passes
  {
    if n > 0 {
      var s1 := WriteOn(setting, s, passes[0], true);
      assert passes[..n][1..] == passes[1..][..n - 1];
      WriteCarries(setting, s, passes[0], true);
      PassesCarry(setting, s1, passes[1..], n - 1);
      CarriedOn(setting, s, s1, PassesOn(setting, s1, passes[1..][..n - 1]));
    }
  }

  lemma FlushCarries(setting: Setting, s: State, passes: Passes)
    requires setting.env.codec.Lossless() && OnDisk(setting, s) && BenignFlush(setting, s, passes)
    ensures Carried(setting, s, FlushOn(setting, s, passes))
  {
    var n := FlushIsPasses(setting, s, passes);
    PassesCarry(setting, s, passes, n);
  }

  /** The entry goes into a file that is sound and, while the entry is queued, tidy. */
  lemma AddCarries(env: Env, w: World, header: Bytes, entry: Entry, now: nat)
    requires env.codec.Lossless() && Inv(env, w)
    ensures var w' := Step(env, Step(env, w, Redefine(header)), Add(entry, now)); Inv(env, w') && Tidy(w')
  {
    var w1 := Step(env, w, Redefine(header));
    StepKeepsInv(env, w, Redefine(header));
    StepKeepsInv(env, w1, Add(entry, now));
    ShedIsLeast(Opened(w1, now).logs + [entry]);
  }

  lemma SameFilesCarry(setting: Setting, s: State, s': State)
    requires OnDisk(setting, s) && s'.worlds == s.worlds
    ensures Carried(setting, s, s')
  {
  }

  lemma WorldOfIsOnDisk(setting: Setting, s: State, id: FileId, header: Bytes)
    requires OnDisk(setting, s)
    ensures Inv(setting.env, WorldOf(setting, s, id, header))
  {
    if id !in s.worlds {
      StartIsSound(setting.env, header, setting.found(id));
    }
  }

  lemma UpdateCarries(setting: Setting, s: State, s': State, id: FileId, w: World)
    requires OnDisk(setting, s) && s'.worlds == s.worlds[id := w] && Inv(setting.env, w) && Tidy(w)
    ensures Carried(setting, s, s')
  {
  }

  lemma LogCarries(setting: Setting, s: State, data: Data, now: nat)
    requires setting.env.codec.Lossless() && OnDisk(setting, s)
    ensures Carried(setting, s, LogOn(setting, s, data, now))
    ensures data.name in s.definitions ==>
      var id := IdOf(setting, s.definitions[data.name], data);
      id in LogOn(setting, s, data, now).worlds && Tidy(LogOn(setting, s, data, now).worlds[id])
  {
    var s' := LogOn(setting, s, data, now);
    if data.name in s.definitions {
      var d := s.definitions[data.name];
      var id := IdOf(setting, d, data);
      WorldOfIsOnDisk(setting, s, id, d.header);
      AddCarries(setting.env, WorldOf(setting, s, id, d.header), d.header, EntryOf(setting, d, data), now);
      UpdateCarries(setting, s, s', id, s'.worlds[id]);
    } else {
      SameFilesCarry(setting, s, s');
    }
  }

  lemma {:induction false} LogAllCarries(setting: Setting, s: State, logs: seq<Data>, now: nat)
    requires setting.env.codec.Lossless() && OnDisk(setting, s)
    ensures Carried(setting, s, LogAll(setting, s, logs, now))
    decreases logs
  {
    if logs != [] {
      var s1 := LogOn(setting, s, logs[0], now);
      LogCarries(setting, s, logs[0], now);
      LogAllCarries(setting, s1, logs[1..], now);
      CarriedOn(setting, s, s1, LogAll(setting, s1, logs[1..], now));
    }
  }

  lemma CleanUpCarries(setting: Setting, s: State, now: nat)
    requires setting.env.codec.Lossless() && OnDisk(setting, s) && Good(s)
    ensures Carried(setting, s, CleanUpOn(setting, s, now))
  {
    var s' := CleanUpOn(setting, s, now);
    CleanUpDiscardsNothing(setting, s, now);
    forall id | id in s.worlds
      ensures Inv(setting.env, s'.worlds[id]) && (Tidy(s.worlds[id]) ==> Tidy(s'.worlds[id]))
    {
      UndisturbedCarries(setting.env, s.worlds[id], s'.worlds[id], now);
    }
  }

  lemma UndisturbedCarries(env: Env, w: World, w': World, now: nat)
    requires env.codec.Lossless() && Inv(env, w) && Undisturbed(w, w', now)
    ensures Inv(env, w') && (Tidy(w) ==> Tidy(w'))
  {
    StepCarries(env, w, CleanUp(now));
  }

  lemma DeleteCarries(setting: Setting, s: State, deleted: set<FileId>)
    requires setting.env.codec.Lossless() && OnDisk(setting, s)
    ensures Carried(setting, s, DeleteOn(setting, s, deleted))
  {
    forall id | id in s.worlds
      ensures var w' := Step(setting.env, s.worlds[id], Delete);
        Inv(setting.env, w') && (Tidy(s.worlds[id]) ==> Tidy(w'))
    {
      StepCarries(setting.env, s.worlds[id], Delete);
    }
  }

  lemma CleanupTickCarries(setting: Setting, s: State, now: nat, deleted: set<FileId>)
    requires setting.env.codec.Lossless() && OnDisk(setting, s) && Good(s)
    ensures Carried(setting, s, DeleteOn(setting, CleanUpOn(setting, s, now), deleted))
  {
    var cleaned := CleanUpOn(setting, s, now);
    CleanUpCarries(setting, s, now);
    DeleteCarries(setting, cleaned, deleted);
    CarriedOn(setting, s, cleaned, DeleteOn(setting, cleaned, deleted));
  }

  lemma BundleCarries(setting: Setting, s: State, ds: seq<(string, Definition)>, logs: seq<Data>, now: nat)
    requires setting.env.codec.Lossless() && OnDisk(setting, s)
    ensures Carried(setting, s, LogAll(setting, DefineAll(s, ds, now), logs, now))
  {
    var defined := DefineAll(s, ds, now);
    DefinesTouchNoFile(s, ds, now);
    SameFilesCarry(setting, s, defined);
    LogAllCarries(setting, defined, logs, now);
    CarriedOn(setting, s, defined, LogAll(setting, defined, logs, now));
  }

  lemma LogMessageCarries(setting: Setting, s: State, m: Message, now: nat, passes: Passes)
    requires setting.env.codec.Lossless() && OnDisk(setting, s) && (m.Log? || m.Bundle?)
    ensures Carried(setting, s, MessageOn(setting, s, m, now, passes))
  {
    if m.Log? {
      LogCarries(setting, s, m.data, now);
    } else {
      BundleCarries(setting, s, m.definitions, m.logs, now);
    }
  }

  lemma MessageCarries(setting: Setting, s: State, m: Message, now: nat, passes: Passes)
    requires setting.env.codec.Lossless() && OnDisk(setting, s)
    requires m.Flush? ==> BenignFlush(setting, s, passes)
    ensures Carried(setting, s, MessageOn(setting, s, m, now, passes))
  {
    if m.Flush? {
      FlushCarries(setting, s, passes);
    } else if m.Log? || m.Bundle? {
      LogMessageCarries(setting, s, m, now, passes);
    } else {
      SameFilesCarry(setting, s, MessageOn(setting, s, m, now, passes));
    }
  }

  lemma TurnCarries(setting: Setting, s: State, turn: Turn)
    requires setting.env.codec.Lossless() && OnDisk(setting, s) && Good(s) && BenignTurn(setting, s, turn)
    ensures Carried(setting, s, TurnOn(setting, s, turn))
  {
    match turn {
      case WriterTick(pass) => WriteCarries(setting, s, pass, false);
      case CleanupTick(now, deleted) => CleanupTickCarries(setting, s, now, deleted);
      case Received(m, now, passes) => MessageCarries(setting, s, m, now, passes);
    }
  }

  /** The crash-recovery invariant of every file at once, over everything the worker can do. */
  lemma {:induction false} ServiceCarries(setting: Setting, s: State, turns: seq<Turn>)
    requires setting.env.codec.Lossless() && OnDisk(setting, s) && Good(s) && BenignTurns(setting, s, turns)
    ensures Carried(setting, s, Serve(setting, s, turns))
    decreases turns
  {
    if turns != [] && !Stops(turns[0]) {
      var s1 := TurnOn(setting, s, turns[0]);
      TurnCarries(setting, s, turns[0]);
      TurnGoesOn(setting, s, turns[0]);
      ServiceCarries(setting, s1, turns[1..]);
      CarriedOn(setting, s, s1, Serve(setting, s1, turns[1..]));
    }
  }

  lemma {:induction false} BenignPrefix(setting: Setting, s: State, turns: seq<Turn>, k: nat)
    requires k <= |turns| && BenignTurns(setting, s, turns)
    ensures BenignTurns(setting, s, turns[..k])
    decreases turns
  {
    if k > 0 && !Stops(turns[0]) {
      assert turns[..k][1..] == turns[1..][..k - 1];
      BenignPrefix(setting, TurnOn(setting, s, turns[0]), turns[1..], k - 1);
    }
  }

  lemma {:induction false} BenignRest(setting: Setting, s: State, turns: seq<Turn>, k: nat)
    requires k <= |turns| && (forall i :: 0 <= i < k ==> !Stops(turns[i])) && BenignTurns(setting, s, turns)
    ensures BenignTurns(setting, Serve(setting, s, turns[..k]), turns[k..])
    decreases turns
  {
    if k > 0 {
      var s1 := TurnOn(setting, s, turns[0]);
      assert turns[..k][1..] == turns[1..][..k - 1] && turns[k..] == turns[1..][k - 1..];
      BenignRest(setting, s1, turns[1..], k - 1);
    } else {
      assert turns[..k] == [] && turns[k..] == turns;
    }
  }

  lemma BenignInTwo(setting: Setting, s: State, turns: seq<Turn>, k: nat)
    requires k <= |turns| && (forall i :: 0 <= i < k ==> !Stops(turns[i])) && BenignTurns(setting, s, turns)
    ensures BenignTurns(setting, s, turns[..k]) && BenignTurns(setting, Serve(setting, s, turns[..k]), turns[k..])
  {
    BenignPrefix(setting, s, turns, k);
    BenignRest(setting, s, turns, k);
  }

  /** Reported as dropped, gone with a file deleted since, or readable. */
  ghost predicate Accounted(env: Env, w: World, entry: Entry, i: nat) {
    && Settled(w, entry, i)
    && (w.fates[i].Dropped? || i < w.floor || Decoded.ReadsBack(env, w.disk, entry))
  }

  lemma SettledReadsBack(env: Env, w: World, entry: Entry, i: nat)
    requires Inv(env, w) && Settled(w, entry, i) && Tidy(w) && QueuedIn(w) == 0
    ensures Accounted(env, w, entry, i)
  {
    if w.fates[i].Drained? && w.floor <= i {
      Decoded.DrainedReadsBack(env, w, i);
    }
  }

  /**
   An entry taken from the channel before the stop signal, by itself or in a
   bundle, under a name that is defined by then, can after the worker's exit be
   read back from its file, unless it was dropped and counted or the file was
   deleted since; if the environment grants every write what recovery needs and
   the writes of the final flush succeed before its deadline.
   */
  lemma StopLeavesEntriesReadable(
      setting: Setting, s: State, turns: seq<Turn>, k: nat, j: nat, last: Passes, id: FileId, entry: Entry)
    requires setting.env.codec.Lossless() && OnDisk(setting, s) && Good(s)
    requires Takes(setting, s, turns, k, j, id, entry)
    requires BenignTurns(setting, s, turns) && BenignFlush(setting, Serve(setting, s, turns), last)
    requires Completes(setting, Serve(setting, s, turns), last)
    ensures var final := FlushOn(setting, Serve(setting, s, turns), last);
      id in final.worlds && exists i :: Accounted(setting.env, final.worlds[id], entry, i)
  {
    var stopped := Serve(setting, s, turns);
    var final := FlushOn(setting, stopped, last);
    StopSettlesEveryEntry(setting, s, turns, k, j, last, id, entry);
    var i :| Settled(final.worlds[id], entry, i);

    TakenStaysTidy(setting, s, turns, k, j, id, entry);
    ServiceCarries(setting, s, turns);
    FlushCarries(setting, stopped, last);
    FlushEmpties(setting, stopped, last);
    QueuedIsZeroExactly(final.worlds);
    SettledReadsBack(setting.env, final.worlds[id], entry, i);
  }

  lemma StateAtCarries(setting: Setting, s: State, m: Message, j: nat, now: nat)
    requires setting.env.codec.Lossless() && OnDisk(setting, s) && j <= |LogsOf(m)|
    ensures OnDisk(setting, StateAt(setting, s, m, j, now))
  {
    if m.Bundle? {
      BundleCarries(setting, s, m.definitions, LogsOf(m)[..j], now);
    } else {
      LogAllCarries(setting, s, LogsOf(m)[..j], now);
    }
  }

  /** Where the entry is queued, and what the worker has after that turn. */
  lemma TakenCarries(setting: Setting, s: State, turns: seq<Turn>, k: nat, j: nat)
    requires setting.env.codec.Lossless() && OnDisk(setting, s) && Good(s)
    requires Brings(turns, k, j) && BenignTurns(setting, s, turns)
    ensures OnDisk(setting, Reached(setting, s, turns, k, j))
    ensures Carried(setting, TakenOn(setting, s, turns, k, j), TurnDone(setting, s, turns, k, j))
  {
    var logs, now := LogsOf(turns[k].message), turns[k].now;
    BenignInTwo(setting, s, turns, k);
    ServiceCarries(setting, s, turns[..k]);
    StateAtCarries(setting, Serve(setting, s, turns[..k]), turns[k].message, j, now);
    LogCarries(setting, Reached(setting, s, turns, k, j), logs[j], now);
    LogAllCarries(setting, TakenOn(setting, s, turns, k, j), logs[j + 1..], now);
  }

  /** The rest of the turns is as benign as the whole. */
  lemma RestIsBenign(setting: Setting, s: State, turns: seq<Turn>, k: nat, j: nat)
    requires Brings(turns, k, j) && Good(s) && BenignTurns(setting, s, turns)
    ensures Good(TurnDone(setting, s, turns, k, j))
    ensures BenignTurns(setting, TurnDone(setting, s, turns, k, j), turns[k + 1..])
  {
    var before := Serve(setting, s, turns[..k]);
    BenignInTwo(setting, s, turns, k);
    assert turns[k..][0] == turns[k];
    SuffixOfSuffix(turns, k, 1);
    TurnThroughEntry(setting, before, turns[k].message, j, turns[k].now, turns[k].passes);
    ServiceGoesOn(setting, s, turns[..k]);
    TurnGoesOn(setting, before, turns[k]);
  }

  /** The file that took the entry has a history, and is tidy when the worker stops. */
  lemma TakenStaysTidy(setting: Setting, s: State, turns: seq<Turn>, k: nat, j: nat, id: FileId, entry: Entry)
    requires setting.env.codec.Lossless() && OnDisk(setting, s) && Good(s)
    requires Takes(setting, s, turns, k, j, id, entry) && BenignTurns(setting, s, turns)
    ensures id in Serve(setting, s, turns).worlds && Tidy(Serve(setting, s, turns).worlds[id])
  {
    var at, done := Reached(setting, s, turns, k, j), TurnDone(setting, s, turns, k, j);
    var data := LogsOf(turns[k].message)[j];
    IsDestined(setting, at.definitions[data.name], data, id, entry);
    TakenCarries(setting, s, turns, k, j);
    LogCarries(setting, at, LogsOf(turns[k].message)[j], turns[k].now);
    RestIsBenign(setting, s, turns, k, j);
    ServiceCarries(setting, done, turns[k + 1..]);
    ServeThroughEntry(setting, s, turns, k, j);
  }
}
