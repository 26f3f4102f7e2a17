/**
 The producers, the channel and the worker together: what is sent is what the
 worker takes, and an entry sent ahead of the stop signal ends in its file
 (src/lib.rs, `send_log`, `def`, `log_bundle`, `shutdown`; src/service.rs, `run`).
 */
module Pipeline {
  import opened Bytes
  import Format
  import opened Messages
  import opened Producers
  import opened Service
  import Shutdown

  /** The message an item of the channel is. */
  function Body(item: Item): Message {
    match item
    case Own(_, _, data) => Log(data)
    case Notice(count, data) => Log(data.(text := Format.ChannelText(count)))
    case Command(m) => m
  }

  function Bodies(items: seq<Item>): seq<Message> {
    seq(|items|, i requires 0 <= i < |items| => Body(items[i]))
  }

  /** The channel, and the turns the worker has taken. */
  datatype Pipe = Pipe(channel: Channel, turns: seq<Turn>)

  /** One step of anyone: a producer's, or a turn of the worker. */
  datatype Move = Produce(op: Op) | Work(turn: Turn)

  /** The worker has taken the stop signal. */
  predicate Stopped(turns: seq<Turn>) {
    turns != [] && Stops(turns[|turns| - 1])
  }

  /** Only the worker receives, and what it receives is the oldest message in the channel. */
  predicate Possible(p: Pipe, move: Move) {
    match move
    case Produce(op) => !op.Receive? && Enabled(p.channel, op)
    case Work(turn) =>
      !Stopped(p.turns) &&
      (turn.Received? ==> p.channel.queue != [] && turn.message == Body(p.channel.queue[0]))
  }

  function After(p: Pipe, move: Move): Pipe
    requires Possible(p, move)
  {
    match move
    case Produce(op) => p.(channel := Next(p.channel, op))
    case Work(turn) => Pipe(if turn.Received? then Next(p.channel, Receive) else p.channel, p.turns + [turn])
  }

  ghost predicate Goes(p: Pipe, moves: seq<Move>)
    decreases moves
  {
    moves == [] || (Possible(p, moves[0]) && Goes(After(p, moves[0]), moves[1..]))
  }

  function Gone(p: Pipe, moves: seq<Move>): Pipe
    requires Goes(p, moves)
    decreases moves
  {
    if moves == [] then p else Gone(After(p, moves[0]), moves[1..])
  }

  /** The worker has left its loop: it took the stop signal, or the channel is closed and empty. */
  predicate Exited(p: Pipe) {
    Stopped(p.turns) || (p.channel.closed && p.channel.queue == [])
  }

  // ---------------------------------------------------------------------------------------------
  // What is taken is what was sent
  // ---------------------------------------------------------------------------------------------

  /** The messages the worker took, in order. */
  function Taken(turns: seq<Turn>): seq<Message> {
    if turns == [] then []
    else
      var last := turns[|turns| - 1];
      Taken(turns[..|turns| - 1]) + if last.Received? then [last.message] else []
  }

  ghost predicate NoStopBut(turns: seq<Turn>) {
    forall i :: 0 <= i < |turns| - 1 ==> !(turns[i].Received? && turns[i].message == Message.Stop)
  }

  ghost predicate Linked(p: Pipe) {
    && Ordered(p.channel)
    && Taken(p.turns) == Bodies(p.channel.sent[..p.channel.received])
    && NoStopBut(p.turns)
  }

  lemma TakesOneMore(turns: seq<Turn>, turn: Turn)
    ensures Taken(turns + [turn]) == Taken(turns) + if turn.Received? then [turn.message] else []
  {
    assert (turns + [turn])[..|turns|] == turns;
  }

  lemma ProduceKeepsReceived(c: Channel, op: Op)
    requires Ordered(c) && Enabled(c, op) && !op.Receive?
    ensures Next(c, op).received == c.received && Next(c, op).sent[..c.received] == c.sent[..c.received]
  {
  }

  lemma ReceiveTakesNext(c: Channel)
    requires Ordered(c) && c.queue != []
    ensures Bodies(Next(c, Receive).sent[..c.received + 1]) ==
      Bodies(c.sent[..c.received]) + [Body(c.queue[0])]
  {
    SliceGrows(c.sent, 0, c.received);
    assert c.sent[0..c.received] == c.sent[..c.received] && c.sent[0..c.received + 1] == c.sent[..c.received + 1];
  }

  lemma MoveKeepsLinked(p: Pipe, move: Move)
    requires Linked(p) && Possible(p, move)
    ensures Linked(After(p, move))
  {
    match move {
      case Produce(op) =>
        StepKeepsOrder(p.channel, op);
        ProduceKeepsReceived(p.channel, op);
      case Work(turn) =>
        TakesOneMore(p.turns, turn);
        if turn.Received? {
          StepKeepsOrder(p.channel, Receive);
          ReceiveTakesNext(p.channel);
        }
    }
  }

  /**
   For any number of producers and any interleaving with the worker: the
   messages the worker has taken are exactly a prefix of those that were sent,
   in that order, and it takes none behind the stop signal.
   */
  lemma {:induction false} MovesKeepLinked(p: Pipe, moves: seq<Move>)
    requires Linked(p) && Goes(p, moves)
    ensures Linked(Gone(p, moves))
    decreases moves
  {
    if moves != [] {
      MoveKeepsLinked(p, moves[0]);
      MovesKeepLinked(After(p, moves[0]), moves[1..]);
    }
  }

  function Fresh(capacity: nat, producers: nat): Pipe {
    Pipe(New(capacity, producers), [])
  }

  lemma FreshIsLinked(capacity: nat, producers: nat)
    ensures Linked(Fresh(capacity, producers))
  {
    NewIsOrdered(capacity, producers);
    NothingTaken(New(capacity, producers));
  }

  lemma NothingTaken(c: Channel)
    requires c.sent == [] && c.received == 0
    ensures Taken([]) == Bodies(c.sent[..c.received])
  {
  }

  /** The turn that takes the `n`-th message. */
  function TurnOf(turns: seq<Turn>, n: nat): (k: nat)
    requires n < |Taken(turns)|
    ensures k < |turns| && turns[k].Received? && turns[k].message == Taken(turns)[n]
    ensures Taken(turns[..k]) == Taken(turns)[..n]
  {
    var last := |turns| - 1;
    var earlier := Taken(turns[..last]);
    if n < |earlier| then
      var k := TurnOf(turns[..last], n);
      assert turns[..last][..k] == turns[..k] && Taken(turns)[..n] == earlier[..n];
      k
    else
      assert Taken(turns)[..n] == earlier;
      last
  }

  /** No stop signal stands among the first `n` messages that were sent. */
  ghost predicate NoStopIn(sent: seq<Item>, n: nat)
    requires n <= |sent|
  {
    forall i :: 0 <= i < n ==> !Body(sent[i]).Stop?
  }

  /** A message sent ahead of the stop signal is taken before the worker exits, and in a turn before it stops. */
  lemma SentIsTaken(p: Pipe, n: nat)
    requires Linked(p) && Exited(p) && n < |p.channel.sent| && NoStopIn(p.channel.sent, n + 1)
    ensures n < |Taken(p.turns)| && Taken(p.turns)[n] == Body(p.channel.sent[n])
    ensures Taken(p.turns)[..n] == Bodies(p.channel.sent[..n])
    ensures forall i :: 0 <= i <= TurnOf(p.turns, n) ==> !Stops(p.turns[i])
  {
    var c, taken := p.channel, Taken(p.turns);
    if Stopped(p.turns) {
      TakesOneMore(p.turns[..|p.turns| - 1], p.turns[|p.turns| - 1]);
      assert p.turns == p.turns[..|p.turns| - 1] + [p.turns[|p.turns| - 1]];
      assert taken[|taken| - 1] == Body(c.sent[c.received - 1]);
    }
    assert n < c.received;
    assert taken[..n] == Bodies(c.sent[..n]);
  }

  // ---------------------------------------------------------------------------------------------
  // A name that is defined stays defined
  // ---------------------------------------------------------------------------------------------

  /** The definitions a message brings. */
  function DefinitionsOf(m: Message): seq<(string, Definition)> {
    match m
    case Define(name, d) => [(name, d)]
    case Bundle(ds, _) => ds
    case _ => []
  }

  ghost predicate Defines(m: Message, name: string) {
    exists d :: (name, d) in DefinitionsOf(m)
  }

  /** The message does not ask for the definition to be removed when idle. */
  ghost predicate Permanent(m: Message, name: string) {
    forall d :: (name, d) in DefinitionsOf(m) ==> !d.autoRemove
  }

  ghost predicate Defined(s: State, name: string) {
    name in s.definitions && !s.definitions[name].autoRemove
  }

  lemma {:induction false} DefineAllDefines(s: State, ds: seq<(string, Definition)>, now: nat, name: string)
    requires Defined(s, name) || exists d :: (name, d) in ds
    requires forall d :: (name, d) in ds ==> !d.autoRemove
    ensures Defined(DefineAll(s, ds, now), name)
    decreases ds
  {
    if ds != [] {
      assert ds == [ds[0]] + ds[1..];
      assert forall d :: (name, d) in ds[1..] ==> (name, d) in ds;
      if ds[0].0 == name {
        assert (name, ds[0].1) in ds;
      }
      DefineAllDefines(DefineOn(s, ds[0].0, ds[0].1, now), ds[1..], now, name);
    }
  }

  lemma {:induction false} LogAllKeepsDefined(setting: Setting, s: State, logs: seq<Data>, now: nat, name: string)
    requires Defined(s, name)
    ensures Defined(LogAll(setting, s, logs, now), name)
    decreases logs
  {
    if logs != [] {
      LogAllKeepsDefined(setting, LogOn(setting, s, logs[0], now), logs[1..], now, name);
    }
  }

  lemma {:induction false} PassesKeepDefinitions(setting: Setting, s: State, passes: seq<Pass>)
    ensures PassesOn(setting, s, passes).definitions == s.definitions
    decreases passes
  {
    if passes != [] {
      PassesKeepDefinitions(setting, WriteOn(setting, s, passes[0], true), passes[1..]);
    }
  }

  lemma FlushKeepsDefinitions(setting: Setting, s: State, passes: Passes)
    ensures FlushOn(setting, s, passes).definitions == s.definitions
  {
    var n := FlushIsPasses(setting, s, passes);
    PassesKeepDefinitions(setting, s, passes[..n]);
  }

  lemma MessageDefines(setting: Setting, s: State, m: Message, now: nat, passes: Passes, name: string)
    requires Defined(s, name) || Defines(m, name)
    requires Permanent(m, name)
    ensures Defined(MessageOn(setting, s, m, now, passes), name)
  {
    match m {
      case Define(other, d) =>
        assert other == name ==> (name, d) in DefinitionsOf(m);
      case Bundle(ds, logs) =>
        DefineAllDefines(s, ds, now, name);
        LogAllKeepsDefined(setting, DefineAll(s, ds, now), logs, now, name);
      case Flush => FlushKeepsDefinitions(setting, s, passes);
      case _ =>
    }
  }

  lemma TurnDefines(setting: Setting, s: State, turn: Turn, name: string)
    requires Defined(s, name) || (turn.Received? && Defines(turn.message, name))
    requires turn.Received? ==> Permanent(turn.message, name)
    ensures Defined(TurnOn(setting, s, turn), name)
  {
    if turn.Received? {
      MessageDefines(setting, s, turn.message, turn.now, turn.passes, name);
    }
  }

  /** Once a taken message has defined a name, and none made it removable, it is defined. */
  lemma {:induction false} ServeDefines(setting: Setting, s: State, turns: seq<Turn>, name: string)
    requires forall i :: 0 <= i < |turns| ==> !Stops(turns[i])
    requires exists i :: 0 <= i < |Taken(turns)| && Defines(Taken(turns)[i], name)
    requires forall i :: 0 <= i < |Taken(turns)| ==> Permanent(Taken(turns)[i], name)
    ensures Defined(Serve(setting, s, turns), name)
    decreases |turns|
  {
    var n := |turns| - 1;
    var earlier, last := Taken(turns[..n]), turns[n];
    TakesOneMore(turns[..n], last);
    assert turns == turns[..n] + [last];
    assert forall i :: 0 <= i < |earlier| ==> earlier[i] == Taken(turns)[i];
    if !(last.Received? && Defines(last.message, name)) {
      ServeDefines(setting, s, turns[..n], name);
    }
    if last.Received? {
      assert Taken(turns)[|earlier|] == last.message;
    }
    TurnDefines(setting, Serve(setting, s, turns[..n]), last, name);
    ServeLast(setting, s, turns);
  }

  // ---------------------------------------------------------------------------------------------
  // From the call to the file
  // ---------------------------------------------------------------------------------------------

  /** The name of an entry in the `n`-th message sent is defined there or ahead of it, for good. */
  ghost predicate NameIsDefined(sent: seq<Item>, n: nat, name: string)
    requires n < |sent|
  {
    && (exists i :: 0 <= i <= n && Defines(Body(sent[i]), name))
    && (forall i :: 0 <= i <= n ==> Permanent(Body(sent[i]), name))
  }

  lemma BodiesDefine(
      setting: Setting, s: State, turns: seq<Turn>, sent: seq<Item>, n: nat, name: string)
    requires n < |sent| && NameIsDefined(sent, n, name) && Taken(turns) == Bodies(sent[..n])
    requires forall i :: 0 <= i < |turns| ==> !Stops(turns[i])
    ensures Defined(Serve(setting, s, turns), name) || Defines(Body(sent[n]), name)
  {
    assert forall i :: 0 <= i < n ==> Taken(turns)[i] == Body(sent[i]);
    var i :| 0 <= i <= n && Defines(Body(sent[i]), name);
    if i < n {
      assert Defines(Taken(turns)[i], name);
      ServeDefines(setting, s, turns, name);
    }
  }

  /** Then the worker finds it defined when it comes to the entry. */
  lemma ReachedDefined(setting: Setting, s: State, p: Pipe, n: nat, j: nat, name: string)
    requires Linked(p) && Exited(p) && n < |p.channel.sent| && NoStopIn(p.channel.sent, n + 1)
    requires j < |LogsOf(Body(p.channel.sent[n]))| && NameIsDefined(p.channel.sent, n, name)
    ensures n < |Taken(p.turns)| && Brings(p.turns, TurnOf(p.turns, n), j)
    ensures Defined(Reached(setting, s, p.turns, TurnOf(p.turns, n), j), name)
  {
    SentIsTaken(p, n);
    var k := TurnOf(p.turns, n);
    BodiesDefine(setting, s, p.turns[..k], p.channel.sent, n, name);
    MessageReachesDefined(
      setting, Serve(setting, s, p.turns[..k]), p.turns[k].message, j, p.turns[k].now, name);
  }

  lemma MessageReachesDefined(setting: Setting, s: State, m: Message, j: nat, now: nat, name: string)
    requires j < |LogsOf(m)| && (Defined(s, name) || Defines(m, name)) && Permanent(m, name)
    ensures Defined(StateAt(setting, s, m, j, now), name)
  {
    if m.Bundle? {
      DefineAllDefines(s, m.definitions, now, name);
      LogAllKeepsDefined(setting, DefineAll(s, m.definitions, now), LogsOf(m)[..j], now, name);
    } else {
      LogAllKeepsDefined(setting, s, LogsOf(m)[..j], now, name);
    }
  }

  /**
   What became of an entry, spelled out: `data`, the `j`-th of the `n`-th message
   sent, found its name defined; the entry made of it by the definition then in
   effect can be read back from the file that definition names, unless it was
   dropped and counted or the file was deleted since.
   */
  ghost predicate Fulfilled(setting: Setting, s: State, p: Pipe, last: Passes, n: nat, j: nat, data: Data) {
    && n < |Taken(p.turns)| && Brings(p.turns, TurnOf(p.turns, n), j)
    && var definitions := Reached(setting, s, p.turns, TurnOf(p.turns, n), j).definitions;
    data.name in definitions &&
    exists id, entry :: Destined(setting, definitions[data.name], data, id, entry) &&
      Ends(setting, FlushOn(setting, Serve(setting, s, p.turns), last), id, entry)
  }

  ghost predicate Ends(setting: Setting, final: State, id: FileId, entry: Bytes) {
    id in final.worlds && exists i :: Shutdown.Accounted(setting.env, final.worlds[id], entry, i)
  }

  /** What the theorems below ask of a run: the worker starts well, exits, and its environment is benign. */
  ghost predicate RunsWell(setting: Setting, s: State, p: Pipe, last: Passes) {
    && setting.env.codec.Lossless() && Shutdown.OnDisk(setting, s) && Good(s) && Exited(p)
    && Shutdown.BenignTurns(setting, s, p.turns) && Shutdown.BenignFlush(setting, Serve(setting, s, p.turns), last)
    && Completes(setting, Serve(setting, s, p.turns), last)
  }

  lemma LinkedIsFulfilled(setting: Setting, s: State, p: Pipe, last: Passes, n: nat, j: nat)
    requires RunsWell(setting, s, p, last) && Linked(p)
    requires n < |p.channel.sent| && NoStopIn(p.channel.sent, n + 1) && j < |LogsOf(Body(p.channel.sent[n]))|
    requires NameIsDefined(p.channel.sent, n, LogsOf(Body(p.channel.sent[n]))[j].name)
    ensures Fulfilled(setting, s, p, last, n, j, LogsOf(Body(p.channel.sent[n]))[j])
  {
    var data := LogsOf(Body(p.channel.sent[n]))[j];
    SentIsTaken(p, n);
    ReachedDefined(setting, s, p, n, j, data.name);
    var k := TurnOf(p.turns, n);
    var d := Reached(setting, s, p.turns, k, j).definitions[data.name];
    var id, entry := IdOf(setting, d, data), EntryOf(setting, d, data);
    IsDestined(setting, d, data, id, entry);
    Shutdown.StopLeavesEntriesReadable(setting, s, p.turns, k, j, last, id, entry);
    assert Ends(setting, FlushOn(setting, Serve(setting, s, p.turns), last), id, entry);
  }

  /** Every run of producers and worker is linked, from the start. */
  lemma RunIsLinked(capacity: nat, producers: nat, moves: seq<Move>)
    requires Goes(Fresh(capacity, producers), moves)
    ensures Linked(Gone(Fresh(capacity, producers), moves))
  {
    FreshIsLinked(capacity, producers);
    MovesKeepLinked(Fresh(capacity, producers), moves);
  }

  /**
   The whole path of a call of `log`. For any number of producers and any
   interleaving: an entry that the channel took ahead of the stop signal, under a
   name defined ahead of it and not to be removed when idle, can after the
   worker's exit be read back from its file, with the text the caller passed.
   */
  lemma CallsAreReadable(
      setting: Setting, s: State, capacity: nat, producers: nat, moves: seq<Move>, last: Passes,
      n: nat, t: nat, serial: nat, data: Data)
    requires Goes(Fresh(capacity, producers), moves)
    requires var p := Gone(Fresh(capacity, producers), moves);
      && RunsWell(setting, s, p, last)
      && n < |p.channel.sent| && p.channel.sent[n] == Own(t, serial, data)
      && NoStopIn(p.channel.sent, n) && NameIsDefined(p.channel.sent, n, data.name)
    ensures Fulfilled(setting, s, Gone(Fresh(capacity, producers), moves), last, n, 0, data)
  {
    RunIsLinked(capacity, producers, moves);
    LinkedIsFulfilled(setting, s, Gone(Fresh(capacity, producers), moves), last, n, 0);
  }

  /** The notice of refused entries goes the same way: its line tells their number. */
  lemma NoticesAreReadable(
      setting: Setting, s: State, capacity: nat, producers: nat, moves: seq<Move>, last: Passes,
      n: nat, count: nat, data: Data)
    requires Goes(Fresh(capacity, producers), moves)
    requires var p := Gone(Fresh(capacity, producers), moves);
      && RunsWell(setting, s, p, last)
      && n < |p.channel.sent| && p.channel.sent[n] == Notice(count, data)
      && NoStopIn(p.channel.sent, n) && NameIsDefined(p.channel.sent, n, data.name)
    ensures count > 0
    ensures var text :=
        Format.Ascii("[op-log] dropped ") + Format.Decimal(count) + Format.Ascii(" log entries (channel full)");
      Fulfilled(setting, s, Gone(Fresh(capacity, producers), moves), last, n, 0, Data(data.name, data.date, text))
  {
    RunIsLinked(capacity, producers, moves);
    LinkedIsFulfilled(setting, s, Gone(Fresh(capacity, producers), moves), last, n, 0);
  }

  /** And so does every entry of a bundle, under a name that an earlier message or the bundle itself defines. */
  lemma BundlesAreReadable(
      setting: Setting, s: State, capacity: nat, producers: nat, moves: seq<Move>, last: Passes,
      n: nat, ds: seq<(string, Definition)>, logs: seq<Data>, j: nat)
    requires Goes(Fresh(capacity, producers), moves) && j < |logs|
    requires var p := Gone(Fresh(capacity, producers), moves);
      && RunsWell(setting, s, p, last)
      && n < |p.channel.sent| && p.channel.sent[n] == Command(Bundle(ds, logs))
      && NoStopIn(p.channel.sent, n) && NameIsDefined(p.channel.sent, n, logs[j].name)
    ensures Fulfilled(setting, s, Gone(Fresh(capacity, producers), moves), last, n, j, logs[j])
  {
    RunIsLinked(capacity, producers, moves);
    LinkedIsFulfilled(setting, s, Gone(Fresh(capacity, producers), moves), last, n, j);
  }
}
