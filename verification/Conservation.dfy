/**
 What no event can break, whatever the disk does: the queue's place in the
 accepted entries, delivery in order, the account of dropped entries, and where
 the header may stand.
 */
module Conservation {
  import opened Bytes
  import opened Encoder
  import opened LogFiles
  import opened History

  /** The queue is what remains of the accepted entries once every other entry has met its fate. */
  ghost predicate QueueInv(w: World) {
    QueueIsRest(w.file, w.accepted, |w.fates|)
  }

  ghost predicate QueueIsRest(file: Option<FileState>, accepted: seq<Entry>, gone: nat) {
    match file
    case None => gone == |accepted|
    case Some(f) =>
      && gone + |f.logs| == |accepted|
      && f.logs == accepted[gone..]
      && f.queuedBytes == TotalBytes(f.logs)
      && WithinCap(f.logs)
      && (f.logs == [] ==> f.verified && f.dropped == 0)
      && (f.pendingSince.None? <==> f.logs == [])
  }

  /** Confirmed frames carry, in order, exactly the drained entries; nothing confirmed is ever written again. */
  ghost predicate DeliveryInv(w: World)
    requires |w.fates| <= |w.accepted|
  {
    && AllInRange(w.records, w.accepted)
    && w.floor <= |w.fates|
    && (forall i :: 0 <= i < |w.records| && w.records[i].confirmed ==> w.records[i].hi <= |w.fates|)
    && (forall i, j :: 0 <= i < j < |w.records| && w.records[i].confirmed ==> w.records[i].hi <= w.records[j].lo)
    && Delivered(w.records, w.accepted) == DrainedSince(w.accepted, w.fates, w.floor)
  }

  /** A confirmed frame on disk carries the `i`-th accepted entry. */
  ghost predicate Placed(records: seq<Record>, i: nat) {
    exists k :: 0 <= k < |records| && Holds(records[k], i)
  }

  ghost predicate Holds(r: Record, i: nat) {
    r.confirmed && r.lo <= i < r.hi
  }

  /** An entry that left the queue since the file began was drained exactly if a confirmed frame carries it. */
  ghost predicate PlacedInv(w: World) {
    forall i :: w.floor <= i < |w.fates| ==> (w.fates[i].Drained? <==> Placed(w.records, i))
  }

  /** Every dropped entry is reported in a confirmed frame, still counted, or was forgotten by a restart. */
  ghost predicate DropInv(w: World) {
    w.reportedEarlier + Reported(w.records) + w.unreported
    + (if w.file.Some? then w.file.value.dropped else 0) == CountDropped(w.fates)
  }

  /** Only the first frame of a file can carry a header. */
  ghost predicate HeaderInv(w: World) {
    && (w.records != [] ==> HasContent(w.disk))
    && (forall i :: 0 < i < |w.records| ==> w.records[i].head.None?)
  }

  ghost predicate HistoryInv(w: World) {
    QueueInv(w) && DeliveryInv(w) && PlacedInv(w) && DropInv(w) && HeaderInv(w)
  }

  // ---------------------------------------------------------------------------------------------
  // Small facts about the history functions
  // ---------------------------------------------------------------------------------------------

  lemma {:induction false} DrainedIgnoresMore(accepted: seq<Entry>, more: seq<Entry>, fates: seq<Fate>, from: nat)
    requires |fates| <= |accepted|
    ensures DrainedSince(accepted + more, fates, from) == DrainedSince(accepted, fates, from)
  {
    if |fates| > from {
      DrainedIgnoresMore(accepted, more, fates[..|fates| - 1], from);
    }
  }

  lemma DrainedOneMore(accepted: seq<Entry>, fates: seq<Fate>, fate: Fate, from: nat)
    requires |fates| < |accepted| && from <= |fates|
    ensures DrainedSince(accepted, fates + [fate], from) ==
      DrainedSince(accepted, fates, from) + if fate.Drained? then [accepted[|fates|]] else []
  {
    assert (fates + [fate])[..|fates|] == fates;
  }

  lemma RepeatGrows(fates: seq<Fate>, fate: Fate, n: nat)
    requires n > 0
    ensures fates + Repeat(fate, n) == (fates + Repeat(fate, n - 1)) + [fate]
  {
  }

  lemma {:induction false} DrainedGrows(accepted: seq<Entry>, fates: seq<Fate>, fate: Fate, n: nat, from: nat)
    requires |fates| + n <= |accepted| && from <= |fates|
    ensures DrainedSince(accepted, fates + Repeat(fate, n), from) ==
      DrainedSince(accepted, fates, from) + if fate.Drained? then accepted[|fates|..|fates| + n] else []
  {
    if n == 0 {
      assert fates + Repeat(fate, n) == fates;
    } else {
      RepeatGrows(fates, fate, n);
      DrainedGrows(accepted, fates, fate, n - 1, from);
      DrainedOneMore(accepted, fates + Repeat(fate, n - 1), fate, from);
      SliceGrows(accepted, |fates|, |fates| + n - 1);
    }
  }

  lemma {:induction false} DroppedGrow(fates: seq<Fate>, fate: Fate, n: nat)
    ensures CountDropped(fates + Repeat(fate, n)) == CountDropped(fates) + if fate.Dropped? then n else 0
  {
    if n == 0 {
      assert fates + Repeat(fate, n) == fates;
    } else {
      var all := fates + Repeat(fate, n);
      assert all[..|all| - 1] == fates + Repeat(fate, n - 1);
      DroppedGrow(fates, fate, n - 1);
    }
  }

  lemma {:induction false} DeliveredIgnoresMore(records: seq<Record>, accepted: seq<Entry>, more: seq<Entry>)
    requires AllInRange(records, accepted)
    ensures AllInRange(records, accepted + more)
    ensures Delivered(records, accepted + more) == Delivered(records, accepted)
  {
    if records != [] {
      var n := |records| - 1;
      var r := records[n];
      assert InRange(r, accepted);
      DeliveredIgnoresMore(records[..n], accepted, more);
      assert (accepted + more)[r.lo..r.hi] == accepted[r.lo..r.hi];
    }
  }

  lemma LastRecord(records: seq<Record>, r: Record, accepted: seq<Entry>)
    requires AllInRange(records, accepted) && InRange(r, accepted)
    ensures AllInRange(records + [r], accepted)
    ensures Delivered(records + [r], accepted) ==
      Delivered(records, accepted) + if r.confirmed then accepted[r.lo..r.hi] else []
    ensures Reported(records + [r]) == Reported(records) + if r.confirmed then r.noticed else 0
  {
    assert (records + [r])[..|records|] == records;
  }

  // ---------------------------------------------------------------------------------------------
  // Every event keeps the invariant
  // ---------------------------------------------------------------------------------------------

  lemma AddKeepsQueue(w: World, entry: Entry, now: nat)
    requires QueueInv(w)
    ensures QueueInv(AddStep(w, entry, now))
    ensures var w' := AddStep(w, entry, now);
      |w.fates| + Shed(Opened(w, now).logs + [entry]) <= |w'.accepted|
  {
    var all := Opened(w, now).logs + [entry];
    var w' := AddStep(w, entry, now);
    ShedIsLeast(all);
    assert w'.accepted[|w.fates|..] == all;
    assert w'.accepted[|w'.fates|..] == all[Shed(all)..];
  }

  lemma AddKeepsDelivery(w: World, entry: Entry, now: nat)
    requires QueueInv(w) && DeliveryInv(w)
    ensures var w' := AddStep(w, entry, now); |w'.fates| <= |w'.accepted| && DeliveryInv(w')
  {
    var k := Shed(Opened(w, now).logs + [entry]);
    AddKeepsQueue(w, entry, now);
    DrainedIgnoresMore(w.accepted, [entry], w.fates, w.floor);
    DrainedGrows(w.accepted + [entry], w.fates, Dropped, k, w.floor);
    DeliveredIgnoresMore(w.records, w.accepted, [entry]);
  }

  /** Entries that leave the queue in any other way are in no confirmed frame. */
  lemma OthersAreNotPlaced(w: World, fate: Fate, n: nat)
    requires |w.fates| <= |w.accepted| && DeliveryInv(w) && PlacedInv(w) && !fate.Drained?
    ensures PlacedInv(w.(fates := w.fates + Repeat(fate, n)))
  {
    forall i | |w.fates| <= i < |w.fates| + n ensures !Placed(w.records, i) {
    }
  }

  lemma WriteKeepsPlaced(w: World, f: FileState, a: Attempt, c: Cargo)
    requires QueueInv(w) && DeliveryInv(w) && PlacedInv(w) && w.file == Some(f) && Fits(f, c)
    ensures PlacedInv(Append(w, f, a, c))
  {
    if Touches(f, a) && LandsWhole(w, a, c) {
      var r, w' := RecordOf(w, f, a, c), Append(w, f, a, c);
      forall i | w'.floor <= i < |w'.fates| ensures w'.fates[i].Drained? <==> Placed(w'.records, i) {
        PlacedOneMore(w.records, r, i);
        if i >= |w.fates| {
          assert !Placed(w.records, i);
        }
      }
    }
  }

  lemma PlacedOneMore(records: seq<Record>, r: Record, i: nat)
    ensures Placed(records + [r], i) <==> Placed(records, i) || Holds(r, i)
  {
    if Placed(records, i) {
      var k :| 0 <= k < |records| && Holds(records[k], i);
      assert Holds((records + [r])[k], i);
    }
    if Holds(r, i) {
      assert Holds((records + [r])[|records|], i);
    }
  }

  lemma AddKeeps(w: World, entry: Entry, now: nat)
    requires HistoryInv(w)
    ensures HistoryInv(AddStep(w, entry, now))
  {
    AddKeepsQueue(w, entry, now);
    AddKeepsDelivery(w, entry, now);
    OthersAreNotPlaced(w, Dropped, Shed(Opened(w, now).logs + [entry]));
    DroppedGrow(w.fates, Dropped, Shed(Opened(w, now).logs + [entry]));
  }

  lemma RestartKeeps(w: World)
    requires HistoryInv(w)
    ensures HistoryInv(RestartStep(w))
  {
    if w.file.Some? {
      var n := |w.file.value.logs|;
      DrainedGrows(w.accepted, w.fates, Lost, n, w.floor);
      OthersAreNotPlaced(w, Lost, n);
      DroppedGrow(w.fates, Lost, n);
    }
  }

  lemma DeleteKeeps(w: World)
    requires HistoryInv(w)
    ensures HistoryInv(DeleteStep(w))
  {
  }

  /** What every attempt's cargo is like, whatever the compressor does. */
  ghost predicate Fits(f: FileState, c: Cargo) {
    c.consumed <= |f.logs| && (f.logs != [] ==> c.consumed > 0) && c.frame != []
  }

  /** An attempt's record carries the entries at the front of the queue. */
  lemma RecordCarriesQueue(w: World, f: FileState, a: Attempt, c: Cargo)
    requires QueueInv(w) && w.file == Some(f) && Fits(f, c)
    ensures var r := RecordOf(w, f, a, c);
      InRange(r, w.accepted) && r.hi == r.lo + c.consumed && w.accepted[r.lo..r.hi] == f.logs[..c.consumed]
  {
    var r := RecordOf(w, f, a, c);
    assert w.accepted[r.lo..][..c.consumed] == w.accepted[r.lo..r.hi];
  }

  lemma DrainKeepsRest(f: FileState, accepted: seq<Entry>, gone: nat, consumed: nat)
    requires QueueIsRest(Some(f), accepted, gone) && consumed <= |f.logs|
    ensures QueueIsRest(Some(Drain(f, consumed)), accepted, gone + consumed)
  {
    SuffixOfSuffix(accepted, gone, consumed);
    SuffixWithinCap(f.logs, consumed);
  }

  lemma WriteKeepsQueue(w: World, f: FileState, a: Attempt, c: Cargo)
    requires QueueInv(w) && w.file == Some(f) && Fits(f, c)
    ensures QueueInv(Append(w, f, a, c))
  {
    if Touches(f, a) && a.fault.NoFault? {
      DrainKeepsRest(f, w.accepted, |w.fates|, c.consumed);
    }
  }

  lemma SuffixWithinCap(logs: seq<Entry>, n: nat)
    requires n <= |logs| && WithinCap(logs)
    ensures WithinCap(logs[n..])
  {
    assert logs == logs[..n] + logs[n..];
    TotalBytesJoin(logs[..n], logs[n..]);
  }

  lemma WriteKeepsDelivery(w: World, f: FileState, a: Attempt, c: Cargo)
    requires QueueInv(w) && DeliveryInv(w) && w.file == Some(f) && Fits(f, c)
    ensures var w' := Append(w, f, a, c); |w'.fates| <= |w'.accepted| && DeliveryInv(w')
  {
    if Touches(f, a) {
      RecordCarriesQueue(w, f, a, c);
      if LandsWhole(w, a, c) {
        RecordKeepsDelivery(w, RecordOf(w, f, a, c));
      }
    }
  }

  /** One more record, and if it is confirmed its entries drained. */
  lemma RecordKeepsDelivery(w: World, r: Record)
    requires |w.fates| <= |w.accepted| && DeliveryInv(w)
    requires r.lo == |w.fates| <= r.hi <= |w.accepted|
    ensures DeliveryInv(w.(records := w.records + [r],
                           fates := if r.confirmed then w.fates + Repeat(Drained, r.hi - r.lo) else w.fates))
  {
    LastRecord(w.records, r, w.accepted);
    DrainedGrows(w.accepted, w.fates, Drained, r.hi - r.lo, w.floor);
  }

  /** The count is in the frame that was confirmed, or is still counted. */
  lemma WriteReportsDrops(w: World, f: FileState, a: Attempt, c: Cargo)
    requires AllInRange(w.records, w.accepted) && InRange(RecordOf(w, f, a, c), w.accepted)
    requires w.file == Some(f) && Fits(f, c) && Touches(f, a)
    ensures var w' := Append(w, f, a, c);
      w'.file.Some? && Reported(w'.records) + w'.file.value.dropped == Reported(w.records) + f.dropped
  {
    if LandsWhole(w, a, c) {
      LastRecord(w.records, RecordOf(w, f, a, c), w.accepted);
    }
  }

  lemma WriteKeepsDrops(w: World, f: FileState, a: Attempt, c: Cargo)
    requires QueueInv(w) && DeliveryInv(w) && DropInv(w) && w.file == Some(f) && Fits(f, c)
    ensures DropInv(Append(w, f, a, c))
  {
    if Touches(f, a) {
      RecordCarriesQueue(w, f, a, c);
      WriteReportsDrops(w, f, a, c);
      DroppedGrow(w.fates, Drained, c.consumed);
    }
  }

  /** A file that has content keeps some: the cut never empties it. */
  lemma ContentStays(w: World, f: FileState, a: Attempt, c: Cargo)
    requires HasContent(w.disk) || (Touches(f, a) && LandsWhole(w, a, c) && c.frame != [])
    ensures HasContent(DiskAfter(w.disk, f, a, c.frame))
  {
  }

  lemma WriteKeepsHeader(w: World, f: FileState, a: Attempt, c: Cargo)
    requires HeaderInv(w) && w.file == Some(f) && Fits(f, c) && c.head == HeaderFor(w.disk, f)
    ensures HeaderInv(Append(w, f, a, c))
  {
    if HasContent(w.disk) || (Touches(f, a) && LandsWhole(w, a, c)) {
      ContentStays(w, f, a, c);
    }
  }

  lemma WriteKeepsHistory(w: World, f: FileState, a: Attempt, c: Cargo)
    requires HistoryInv(w) && w.file == Some(f) && Fits(f, c) && c.head == HeaderFor(w.disk, f)
    ensures HistoryInv(Append(w, f, a, c))
  {
    WriteKeepsQueue(w, f, a, c);
    WriteKeepsDelivery(w, f, a, c);
    WriteKeepsPlaced(w, f, a, c);
    WriteKeepsDrops(w, f, a, c);
    WriteKeepsHeader(w, f, a, c);
  }

  lemma StepKeepsHistory(env: Env, w: World, e: Event)
    requires HistoryInv(w)
    ensures HistoryInv(Step(env, w, e))
  {
    match e {
      case Add(entry, now) => AddKeeps(w, entry, now);
      case Write(a) =>
        if w.file.Some? {
          WriteKeepsHistory(w, w.file.value, a, CargoOf(env, w.disk, w.file.value, a));
        }
      case CleanUp(now) =>
      case Restart => RestartKeeps(w);
      case Delete => DeleteKeeps(w);
      case Redefine(header) =>
    }
  }

  /**
   Over every run, with no hypothesis about the disk: the queue is the rest of
   the accepted entries and within its cap, what successful writes drained
   stands in the confirmed frames in order, every drop is accounted for, and
   no frame but the first carries a header.
   */
  lemma {:induction false} RunKeepsHistory(env: Env, w: World, events: seq<Event>)
    requires HistoryInv(w)
    ensures HistoryInv(Run(env, w, events))
    decreases events
  {
    if events != [] {
      StepKeepsHistory(env, w, events[0]);
      RunKeepsHistory(env, Step(env, w, events[0]), events[1..]);
    }
  }

  lemma StartHasHistory(header: Bytes, disk: Option<Bytes>)
    ensures HistoryInv(Start(header, disk))
  {
  }
}
