/**
 Any number of producers calling `send_log` at once against the bounded channel
 and the shared drop counter (src/lib.rs), one step per atomic or channel
 operation.
 */
module Producers {
  import opened Messages

  /**
   What goes through the channel: an entry, told apart by its producer and that
   producer's count of calls; a notice of dropped entries, which carries the
   name and date of the entry it goes ahead of; or anything else.
   */
  datatype Item =
    | Own(producer: nat, serial: nat, data: Data)
    | Notice(count: nat, data: Data)
    | Command(message: Message)

  /** Where a producer stands inside `send_log`. */
  datatype Local =
    | Outside
    | Swapped(pending: nat, data: Data)         // took the count; the notice is still to be sent
    | NoticeRefused(pending: nat, data: Data)   // the channel was full; the count is still to be put back
    | Ready(data: Data)                         // the entry is still to be sent
    | OwnRefused                                // the channel was full; the drop is still to be counted

  /** `calls` is what it has been called with, in order. */
  datatype Producer = Producer(local: Local, calls: seq<Data>)

  datatype Channel = Channel(
    capacity: nat,
    closed: bool,
    dropped: nat,              // the shared atomic
    queue: seq<Item>,
    producers: seq<Producer>,
    sent: seq<Item>,        // every message the channel ever took
    received: nat,             // how many of them the worker has taken out
    refused: nat)              // entries whose own `try_send` failed

  datatype Op =
    | Swap(t: nat, data: Data)
    | SendNotice(t: nat)
    | PutBack(t: nat)
    | SendOwn(t: nat)
    | CountOwn(t: nat)
    | SendCommand(message: Message)
    | Receive
    | Close

  function New(capacity: nat, producers: nat): Channel {
    Channel(capacity, false, 0, [], seq(producers, _ => Producer(Outside, [])), [], 0, 0)
  }

  predicate HasRoom(c: Channel) {
    !c.closed && |c.queue| < c.capacity
  }

  function Send(c: Channel, m: Item): Channel {
    c.(queue := c.queue + [m], sent := c.sent + [m])
  }

  function Goto(c: Channel, t: nat, local: Local): Channel
    requires t < |c.producers|
  {
    c.(producers := c.producers[t := c.producers[t].(local := local)])
  }

  function NoticeOf(c: Channel, t: nat): Item
    requires t < |c.producers| && c.producers[t].local.Swapped?
  {
    Notice(c.producers[t].local.pending, c.producers[t].local.data)
  }

  function OwnOf(c: Channel, t: nat): Item
    requires t < |c.producers| && c.producers[t].local.Ready?
  {
    Own(t, |c.producers[t].calls|, c.producers[t].local.data)
  }

  predicate Enabled(c: Channel, op: Op) {
    match op
    case Swap(t, _) => t < |c.producers| && c.producers[t].local.Outside?
    case SendNotice(t) => t < |c.producers| && c.producers[t].local.Swapped?
    case PutBack(t) => t < |c.producers| && c.producers[t].local.NoticeRefused?
    case SendOwn(t) => t < |c.producers| && c.producers[t].local.Ready?
    case CountOwn(t) => t < |c.producers| && c.producers[t].local.OwnRefused?
    case SendCommand(m) => HasRoom(c) && !m.Log?
    case Receive => c.queue != []
    case Close => true
  }

  function Next(c: Channel, op: Op): Channel
    requires Enabled(c, op)
  {
    match op
    case Swap(t, data) =>
      var local := if c.dropped > 0 then Swapped(c.dropped, data) else Ready(data);
      c.(dropped := 0, producers := c.producers[t := Producer(local, c.producers[t].calls + [data])])
    case SendNotice(t) =>
      var Swapped(pending, data) := c.producers[t].local;
      if HasRoom(c) then Goto(Send(c, NoticeOf(c, t)), t, Ready(data))
      else Goto(c, t, NoticeRefused(pending, data))
    case PutBack(t) =>
      var NoticeRefused(pending, data) := c.producers[t].local;
      Goto(c.(dropped := c.dropped + pending), t, Ready(data))
    case SendOwn(t) =>
      if HasRoom(c) then Goto(Send(c, OwnOf(c, t)), t, Outside)
      else Goto(c.(refused := c.refused + 1), t, OwnRefused)
    case CountOwn(t) =>
      Goto(c.(dropped := c.dropped + 1), t, Outside)
    case SendCommand(m) => Send(c, Command(m))
    case Receive => c.(queue := c.queue[1..], received := c.received + 1)
    case Close => c.(closed := true)
  }

  ghost predicate Runs(c: Channel, ops: seq<Op>)
    decreases ops
  {
    ops == [] || (Enabled(c, ops[0]) && Runs(Next(c, ops[0]), ops[1..]))
  }

  function Run(c: Channel, ops: seq<Op>): Channel
    requires Runs(c, ops)
    decreases ops
  {
    if ops == [] then c else Run(Next(c, ops[0]), ops[1..])
  }

  // ---------------------------------------------------------------------------------------------
  // Conservation
  // ---------------------------------------------------------------------------------------------

  /** Drops a producer carries with it. */
  function Carried(local: Local): nat {
    match local
    case Swapped(pending, _) => pending
    case NoticeRefused(pending, _) => pending
    case OwnRefused => 1
    case _ => 0
  }

  function InFlight(producers: seq<Producer>): nat {
    if producers == [] then 0 else Carried(producers[0].local) + InFlight(producers[1..])
  }

  function Calls(producers: seq<Producer>): nat {
    if producers == [] then 0 else |producers[0].calls| + Calls(producers[1..])
  }

  /** Producers that have entered `send_log` and not tried their own entry yet. */
  function Waiting(producers: seq<Producer>): nat {
    if producers == [] then 0
    else StillToTry(producers[0].local) + Waiting(producers[1..])
  }

  function StillToTry(local: Local): nat {
    if local.Outside? || local.OwnRefused? then 0 else 1
  }

  function Noticed(sent: seq<Item>): nat {
    if sent == [] then 0
    else Noticed(sent[..|sent| - 1]) + if sent[|sent| - 1].Notice? then sent[|sent| - 1].count else 0
  }

  function OwnSent(sent: seq<Item>): nat {
    if sent == [] then 0
    else OwnSent(sent[..|sent| - 1]) + if sent[|sent| - 1].Own? then 1 else 0
  }

  /** Counter, counts in flight and counts in notices add up to the entries that were refused. */
  ghost predicate DropsConserved(c: Channel) {
    c.dropped + InFlight(c.producers) + Noticed(c.sent) == c.refused
  }

  /** Every call's entry was sent, was refused, or is still to be tried. */
  ghost predicate CallsConserved(c: Channel) {
    Calls(c.producers) == OwnSent(c.sent) + c.refused + Waiting(c.producers)
  }

  /** The channel is a bounded queue. */
  ghost predicate Fifo(c: Channel) {
    |c.queue| <= c.capacity && c.received <= |c.sent| && c.queue == c.sent[c.received..]
  }

  /** No producer has sent an entry of a call it has not made. */
  ghost predicate Called(sent: seq<Item>, producers: seq<Producer>) {
    forall i :: 0 <= i < |sent| && sent[i].Own? ==>
      sent[i].producer < |producers| && sent[i].serial <= LastTried(producers[sent[i].producer])
  }

  /** Every producer's entries go through the channel in the order of its calls. */
  ghost predicate InOrder(sent: seq<Item>) {
    forall i, j :: 0 <= i < j < |sent| && sent[i].Own? && sent[j].Own? && sent[i].producer == sent[j].producer
      ==> sent[i].serial < sent[j].serial
  }

  /** No notice reports nothing. */
  ghost predicate Positive(sent: seq<Item>, producers: seq<Producer>) {
    && (forall i :: 0 <= i < |sent| && sent[i].Notice? ==> sent[i].count > 0)
    && (forall t :: 0 <= t < |producers| ==> PendingIsPositive(producers[t].local))
  }

  /** The last call whose entry has been tried. */
  function LastTried(p: Producer): int {
    |p.calls| - StillToTry(p.local)
  }

  predicate PendingIsPositive(local: Local) {
    (local.Swapped? || local.NoticeRefused?) ==> local.pending > 0
  }

  ghost predicate Ordered(c: Channel) {
    Fifo(c) && Called(c.sent, c.producers) && InOrder(c.sent) && Positive(c.sent, c.producers)
  }

  /** What a producer is about to send is what it was last called with. */
  ghost predicate SendsItsCall(p: Producer) {
    (p.local.Swapped? || p.local.NoticeRefused? || p.local.Ready?) ==>
      p.calls != [] && p.local.data == p.calls[|p.calls| - 1]
  }

  ghost predicate WasCalledWith(producers: seq<Producer>, data: Data) {
    exists t :: 0 <= t < |producers| && data in producers[t].calls
  }

  /** Every entry sent is, as it stands, the one its producer was called with; a notice has the name and date of one. */
  ghost predicate Genuine(sent: seq<Item>, producers: seq<Producer>) {
    && (forall i :: 0 <= i < |sent| && sent[i].Own? ==> IsCall(sent[i], producers))
    && (forall i :: 0 <= i < |sent| && sent[i].Notice? ==> WasCalledWith(producers, sent[i].data))
    && (forall t :: 0 <= t < |producers| ==> SendsItsCall(producers[t]))
  }

  ghost predicate IsCall(m: Item, producers: seq<Producer>)
    requires m.Own?
  {
    m.producer < |producers| && 0 < m.serial <= |producers[m.producer].calls| &&
    m.data == producers[m.producer].calls[m.serial - 1]
  }

  ghost predicate Inv(c: Channel) {
    DropsConserved(c) && CallsConserved(c) && Ordered(c) && Genuine(c.sent, c.producers)
  }

  lemma {:induction false} ProducerChanges(producers: seq<Producer>, t: nat, p: Producer)
    requires t < |producers|
    ensures var q, after := producers[t], producers[t := p];
      && InFlight(after) + Carried(q.local) == InFlight(producers) + Carried(p.local)
      && Calls(after) + |q.calls| == Calls(producers) + |p.calls|
      && Waiting(after) + StillToTry(q.local) == Waiting(producers) + StillToTry(p.local)
  {
    if t > 0 {
      ProducerChanges(producers[1..], t - 1, p);
      assert producers[t := p][1..] == producers[1..][t - 1 := p];
    } else {
      assert producers[t := p][1..] == producers[1..];
    }
  }

  /** What one message adds to the sums over `sent`. */
  function Reports(ms: seq<Item>): nat {
    if |ms| == 1 && ms[0].Notice? then ms[0].count else 0
  }

  function Owns(ms: seq<Item>): nat {
    if |ms| == 1 && ms[0].Own? then 1 else 0
  }

  lemma SentGrows(sent: seq<Item>, ms: seq<Item>)
    requires |ms| <= 1
    ensures Noticed(sent + ms) == Noticed(sent) + Reports(ms)
    ensures OwnSent(sent + ms) == OwnSent(sent) + Owns(ms)
  {
    if ms == [] {
      assert sent + ms == sent;
    } else {
      assert (sent + ms)[..|sent|] == sent && (sent + ms)[|sent|] == ms[0];
    }
  }

  /** A move of one producer, sending at most one message, that balances keeps both sums. */
  lemma MoveConserves(c: Channel, c': Channel, t: nat, p: Producer, ms: seq<Item>)
    requires DropsConserved(c) && CallsConserved(c) && t < |c.producers| && |ms| <= 1
    requires c'.producers == c.producers[t := p] && c'.sent == c.sent + ms
    requires var q := c.producers[t];
      && c'.dropped + Carried(p.local) + Reports(ms) + c.refused == c.dropped + Carried(q.local) + c'.refused
      && |p.calls| + StillToTry(q.local) + c.refused == |q.calls| + StillToTry(p.local) + Owns(ms) + c'.refused
    ensures DropsConserved(c') && CallsConserved(c')
  {
    ProducerChanges(c.producers, t, p);
    SentGrows(c.sent, ms);
  }

  lemma SendConserves(c: Channel, op: Op)
    requires DropsConserved(c) && CallsConserved(c) && Enabled(c, op) && (op.SendNotice? || op.SendOwn?)
    ensures DropsConserved(Next(c, op)) && CallsConserved(Next(c, op))
  {
    var c', t := Next(c, op), op.t;
    if !HasRoom(c) {
      MoveConserves(c, c', t, c'.producers[t], []);
    } else if op.SendNotice? {
      MoveConserves(c, c', t, c'.producers[t], [NoticeOf(c, t)]);
    } else {
      MoveConserves(c, c', t, c'.producers[t], [OwnOf(c, t)]);
    }
  }

  lemma CountConserves(c: Channel, op: Op)
    requires DropsConserved(c) && CallsConserved(c) && Enabled(c, op) && (op.Swap? || op.PutBack? || op.CountOwn?)
    ensures DropsConserved(Next(c, op)) && CallsConserved(Next(c, op))
  {
    var c' := Next(c, op);
    assert c'.sent == c.sent + [];
    MoveConserves(c, c', op.t, c'.producers[op.t], []);
  }

  lemma StepConserves(c: Channel, op: Op)
    requires DropsConserved(c) && CallsConserved(c) && Enabled(c, op)
    ensures DropsConserved(Next(c, op)) && CallsConserved(Next(c, op))
  {
    if op.SendNotice? || op.SendOwn? {
      SendConserves(c, op);
    } else if op.Swap? || op.PutBack? || op.CountOwn? {
      CountConserves(c, op);
    } else if op.SendCommand? {
      SentGrows(c.sent, [Command(op.message)]);
    }
  }

  lemma ProducerMoves(sent: seq<Item>, producers: seq<Producer>, t: nat, p: Producer)
    requires Called(sent, producers) && Positive(sent, producers) && t < |producers|
    requires LastTried(producers[t]) <= LastTried(p) && PendingIsPositive(p.local)
    ensures Called(sent, producers[t := p]) && Positive(sent, producers[t := p])
  {
  }

  /** Sending keeps order: an entry is newer than all its producer sent before, and is then that producer's last. */
  lemma MessageJoins(sent: seq<Item>, producers: seq<Producer>, m: Item, t: nat, p: Producer)
    requires Called(sent, producers) && InOrder(sent) && Positive(sent, producers) && t < |producers|
    requires LastTried(producers[t]) <= LastTried(p) && PendingIsPositive(p.local)
    requires m.Notice? ==> m.count > 0
    requires m.Own? ==> m.producer == t && LastTried(producers[t]) < m.serial <= LastTried(p)
    ensures Called(sent + [m], producers[t := p]) && InOrder(sent + [m]) && Positive(sent + [m], producers[t := p])
  {
    ProducerMoves(sent, producers, t, p);
  }

  lemma SendKeepsFifo(c: Channel, m: Item)
    requires Fifo(c) && HasRoom(c)
    ensures Fifo(Send(c, m))
  {
    assert (c.sent + [m])[c.received..] == c.sent[c.received..] + [m];
  }

  lemma SendKeepsOrder(c: Channel, op: Op)
    requires Ordered(c) && Enabled(c, op) && (op.SendNotice? || op.SendOwn?) && HasRoom(c)
    ensures Ordered(Next(c, op))
  {
    var t := op.t;
    var m := if op.SendNotice? then NoticeOf(c, t) else OwnOf(c, t);
    SendKeepsFifo(c, m);
    MessageJoins(c.sent, c.producers, m, t, Next(c, op).producers[t]);
  }

  lemma MoveKeepsOrder(c: Channel, op: Op)
    requires Ordered(c) && Enabled(c, op) && (op.Swap? || op.SendNotice? || op.PutBack? || op.SendOwn? || op.CountOwn?)
    requires (op.SendNotice? || op.SendOwn?) ==> !HasRoom(c)
    ensures Ordered(Next(c, op))
  {
    ProducerMoves(c.sent, c.producers, op.t, Next(c, op).producers[op.t]);
  }

  lemma StepKeepsOrder(c: Channel, op: Op)
    requires Ordered(c) && Enabled(c, op)
    ensures Ordered(Next(c, op))
  {
    match op {
      case SendCommand(m) => SendKeepsFifo(c, Command(m));
      case Receive => assert c.sent[c.received..][1..] == c.sent[c.received + 1..];
      case Close =>
      case _ =>
        if (op.SendNotice? || op.SendOwn?) && HasRoom(c) {
          SendKeepsOrder(c, op);
        } else {
          MoveKeepsOrder(c, op);
        }
    }
  }

  lemma ProducerStaysGenuine(sent: seq<Item>, producers: seq<Producer>, t: nat, p: Producer)
    requires Genuine(sent, producers) && t < |producers| && producers[t].calls <= p.calls && SendsItsCall(p)
    ensures Genuine(sent, producers[t := p])
  {
    var after := producers[t := p];
    forall data | WasCalledWith(producers, data) ensures WasCalledWith(after, data) {
      var u :| 0 <= u < |producers| && data in producers[u].calls;
      assert data in after[u].calls;
    }
  }

  lemma ItemIsGenuine(sent: seq<Item>, producers: seq<Producer>, m: Item)
    requires Genuine(sent, producers)
    requires m.Own? ==> IsCall(m, producers)
    requires m.Notice? ==> WasCalledWith(producers, m.data)
    ensures Genuine(sent + [m], producers)
  {
  }

  lemma StepKeepsGenuine(c: Channel, op: Op)
    requires Genuine(c.sent, c.producers) && Enabled(c, op)
    ensures Genuine(Next(c, op).sent, Next(c, op).producers)
  {
    if op.SendCommand? {
      ItemIsGenuine(c.sent, c.producers, Command(op.message));
    } else if !op.Receive? && !op.Close? {
      var t := op.t;
      ProducerStaysGenuine(c.sent, c.producers, t, Next(c, op).producers[t]);
      if op.SendNotice? && HasRoom(c) {
        assert WasCalledWith(Next(c, op).producers, c.producers[t].local.data);
        ItemIsGenuine(c.sent, Next(c, op).producers, NoticeOf(c, t));
      } else if op.SendOwn? && HasRoom(c) {
        ItemIsGenuine(c.sent, Next(c, op).producers, OwnOf(c, t));
      }
    }
  }

  /**
   For any number of producers and any interleaving of their steps with each
   other and with the worker: no drop is counted twice or forgotten, no entry
   is unaccounted for, each producer's entries keep their order, and every entry
   sent is the one its call was made with.
   */
  lemma {:induction false} InterleavingsConserve(c: Channel, ops: seq<Op>)
    requires Inv(c) && Runs(c, ops)
    ensures Inv(Run(c, ops))
    decreases ops
  {
    if ops != [] {
      StepConserves(c, ops[0]);
      StepKeepsOrder(c, ops[0]);
      StepKeepsGenuine(c, ops[0]);
      InterleavingsConserve(Next(c, ops[0]), ops[1..]);
    }
  }

  lemma NewIsOrdered(capacity: nat, n: nat)
    ensures Ordered(New(capacity, n))
  {
  }

  lemma NothingSent(producers: seq<Producer>)
    requires forall t :: 0 <= t < |producers| ==> producers[t].local.Outside?
    ensures Genuine([], producers)
  {
  }

  lemma NewIsConserved(capacity: nat, n: nat)
    ensures Inv(New(capacity, n))
  {
    NewIsOrdered(capacity, n);
    NothingSent(New(capacity, n).producers);
    NothingInFlight(New(capacity, n).producers);
    NoCalls(New(capacity, n).producers);
  }

  lemma {:induction false} NoCalls(producers: seq<Producer>)
    requires forall t :: 0 <= t < |producers| ==> producers[t].calls == []
    ensures Calls(producers) == 0
  {
    if producers != [] {
      NoCalls(producers[1..]);
    }
  }

  lemma {:induction false} RefusedIsBounded(c: Channel, ops: seq<Op>)
    requires Runs(c, ops)
    ensures Run(c, ops).refused <= c.refused + |ops|
    decreases ops
  {
    if ops != [] {
      RefusedIsBounded(Next(c, ops[0]), ops[1..]);
    }
  }

  const COUNTER_LIMIT := 0x1_0000_0000_0000_0000

  /**
   The 64-bit counter never wraps, in any run of fewer than 2^64 steps of any
   number of producers: not when a count is put back, not when a drop is added.
   */
  lemma CounterNeverWraps(capacity: nat, producers: nat, ops: seq<Op>)
    requires Runs(New(capacity, producers), ops) && |ops| < COUNTER_LIMIT
    ensures var c := Run(New(capacity, producers), ops);
      c.dropped + InFlight(c.producers) <= c.refused < COUNTER_LIMIT
  {
    NewIsConserved(capacity, producers);
    InterleavingsConserve(New(capacity, producers), ops);
    RefusedIsBounded(New(capacity, producers), ops);
  }

  ghost predicate AtRest(c: Channel) {
    forall t :: 0 <= t < |c.producers| ==> c.producers[t].local.Outside?
  }

  lemma {:induction false} NothingInFlight(producers: seq<Producer>)
    requires forall t :: 0 <= t < |producers| ==> producers[t].local.Outside?
    ensures InFlight(producers) == 0 && Waiting(producers) == 0
  {
    if producers != [] {
      NothingInFlight(producers[1..]);
    }
  }

  // ---------------------------------------------------------------------------------------------
  // One call, undisturbed
  // ---------------------------------------------------------------------------------------------

  /** The next step of a producer that is inside `send_log`. */
  function NextOf(local: Local, t: nat): Op
    requires !local.Outside?
  {
    match local
    case Swapped(_, _) => SendNotice(t)
    case NoticeRefused(_, _) => PutBack(t)
    case Ready(_) => SendOwn(t)
    case OwnRefused => CountOwn(t)
  }

  function StepsLeft(local: Local): nat {
    match local
    case Outside => 0
    case OwnRefused => 1
    case Ready(_) => 2
    case NoticeRefused(_, _) => 3
    case Swapped(_, _) => 4
  }

  /** The rest of a call when nothing comes in between, and the state it ends in. */
  function Rest(c: Channel, t: nat): seq<Op>
    requires t < |c.producers|
    decreases StepsLeft(c.producers[t].local)
  {
    if c.producers[t].local.Outside? then []
    else
      var op := NextOf(c.producers[t].local, t);
      [op] + Rest(Next(c, op), t)
  }

  lemma {:induction false} RestRuns(c: Channel, t: nat)
    requires t < |c.producers|
    ensures Runs(c, Rest(c, t))
    decreases StepsLeft(c.producers[t].local)
  {
    if !c.producers[t].local.Outside? {
      var op := NextOf(c.producers[t].local, t);
      RestRuns(Next(c, op), t);
      assert Rest(c, t)[1..] == Rest(Next(c, op), t);
    }
  }

  /** One undisturbed step takes the call on. */
  lemma RestStep(c: Channel, t: nat)
    requires t < |c.producers| && !c.producers[t].local.Outside?
    ensures var op := NextOf(c.producers[t].local, t);
      Runs(c, Rest(c, t)) && Runs(Next(c, op), Rest(Next(c, op), t)) &&
      Run(c, Rest(c, t)) == Run(Next(c, op), Rest(Next(c, op), t))
  {
    var op := NextOf(c.producers[t].local, t);
    RestRuns(c, t);
    RestRuns(Next(c, op), t);
    assert Rest(c, t)[1..] == Rest(Next(c, op), t);
  }

  class OpLogInner {
    var channel: Channel

    constructor (channel: Channel)
      ensures this.channel == channel
    {
      this.channel := channel;
    }

    method TrySend(m: Item) returns (ok: bool)
      modifies this
      ensures ok <==> HasRoom(old(channel))
      ensures channel == if ok then Send(old(channel), m) else old(channel)
    {
      ok := HasRoom(channel);
      if ok {
        channel := Send(channel, m);
      }
    }

    /** `send_log` when nothing comes in between; `t` is the calling producer. */
    method SendLog(t: nat, data: Data)
      requires t < |channel.producers| && channel.producers[t].local.Outside?
      modifies this
      ensures var called := Next(old(channel), Swap(t, data));
        Runs(called, Rest(called, t)) && channel == Run(called, Rest(called, t))
    {
      ghost var c := Next(channel, Swap(t, data));
      RestRuns(c, t);
      ghost var end := Run(c, Rest(c, t));

      var pending := channel.dropped;
      var local := if pending > 0 then Swapped(pending, data) else Ready(data);
      var p := Producer(local, channel.producers[t].calls + [data]);
      channel := channel.(dropped := 0, producers := channel.producers[t := p]);
      if pending > 0 {
        SendPending(t, pending, data);
      }
      SendEntry(t, data);
    }

    method SendPending(t: nat, pending: nat, data: Data)
      requires t < |channel.producers| && channel.producers[t].local == Swapped(pending, data)
      modifies this
      ensures t < |channel.producers| && channel.producers[t].local == Ready(data)
      ensures Runs(old(channel), Rest(old(channel), t)) && Runs(channel, Rest(channel, t))
      ensures Run(channel, Rest(channel, t)) == Run(old(channel), Rest(old(channel), t))
    {
      RestStep(channel, t);
      var noticed := TrySend(Notice(pending, data));
      channel := Goto(channel, t, if noticed then Ready(data) else NoticeRefused(pending, data));
      if !noticed {
        RestStep(channel, t);
        channel := Goto(channel.(dropped := channel.dropped + pending), t, Ready(data));
      }
    }

    method SendEntry(t: nat, data: Data)
      requires t < |channel.producers| && channel.producers[t].local == Ready(data)
      modifies this
      ensures Runs(old(channel), Rest(old(channel), t)) && channel == Run(old(channel), Rest(old(channel), t))
    {
      RestStep(channel, t);
      var sent := TrySend(Own(t, |channel.producers[t].calls|, data));
      if sent {
        channel := Goto(channel, t, Outside);
      } else {
        channel := Goto(channel.(refused := channel.refused + 1), t, OwnRefused);
        RestStep(channel, t);
        channel := Goto(channel.(dropped := channel.dropped + 1), t, Outside);
      }
    }
  }

  /**
   Once nobody is inside `send_log`, one call that finds two free slots sends the
   notice of all refusals, if there are any, and behind it the entry.
   */
  lemma NextCallReportsAll(c: Channel, t: nat, data: Data)
    requires Inv(c) && AtRest(c) && t < |c.producers|
    requires !c.closed && |c.queue| + 2 <= c.capacity
    ensures var called := Next(c, Swap(t, data));
      Runs(called, Rest(called, t)) &&
      var c' := Run(called, Rest(called, t));
      && c'.dropped == 0 && c'.refused == c.refused && Noticed(c'.sent) == c'.refused && AtRest(c')
      && c'.sent == c.sent + (if c.dropped > 0 then [Notice(c.dropped, data)] else [])
          + [Own(t, |c.producers[t].calls| + 1, data)]
  {
    var c1 := Next(c, Swap(t, data));
    RestRuns(c1, t);
    CallSendsAll(c, t, data);
    CallConserves(c, t, data);
    NothingInFlight(Run(c1, Rest(c1, t)).producers);
  }

  lemma CallConserves(c: Channel, t: nat, data: Data)
    requires Inv(c) && t < |c.producers| && c.producers[t].local.Outside?
    ensures var c1 := Next(c, Swap(t, data)); Runs(c1, Rest(c1, t)) && Inv(Run(c1, Rest(c1, t)))
  {
    var c1 := Next(c, Swap(t, data));
    RestRuns(c1, t);
    StepConserves(c, Swap(t, data));
    StepKeepsOrder(c, Swap(t, data));
    StepKeepsGenuine(c, Swap(t, data));
    InterleavingsConserve(c1, Rest(c1, t));
  }

  lemma CallSendsAll(c: Channel, t: nat, data: Data)
    requires AtRest(c) && t < |c.producers| && !c.closed && |c.queue| + 2 <= c.capacity
    ensures var c1 := Next(c, Swap(t, data));
      Runs(c1, Rest(c1, t)) &&
      var c' := Run(c1, Rest(c1, t));
      && c'.dropped == 0 && c'.refused == c.refused && AtRest(c')
      && c'.sent == c.sent + (if c.dropped > 0 then [Notice(c.dropped, data)] else [])
          + [Own(t, |c.producers[t].calls| + 1, data)]
  {
    var c1 := Next(c, Swap(t, data));
    RestRuns(c1, t);
    if c.dropped > 0 {
      RestStep(c1, t);
      RoomyCallEnds(Next(c1, SendNotice(t)), t);
    } else {
      RoomyCallEnds(c1, t);
      assert c.sent + [] == c.sent;
    }
  }

  lemma RoomyCallEnds(c: Channel, t: nat)
    requires t < |c.producers| && c.producers[t].local.Ready? && HasRoom(c) && c.dropped == 0
    requires forall u :: 0 <= u < |c.producers| && u != t ==> c.producers[u].local.Outside?
    ensures Runs(c, Rest(c, t))
    ensures var c' := Run(c, Rest(c, t));
      c'.dropped == 0 && c'.refused == c.refused && AtRest(c') && c'.sent == c.sent + [OwnOf(c, t)]
  {
    RestStep(c, t);
    var c1 := Next(c, SendOwn(t));
    assert Rest(c1, t) == [];
  }
}
