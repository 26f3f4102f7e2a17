/**
 Crash recovery: what the bytes on disk are over whole runs of logging, failed
 and successful writes, restarts, idle removal and deletion, and exactly which
 interruptions the code recovers from.
 */
module Recovery {
  import opened Bytes
  import opened SizeField
  import opened Framing
  import opened Walker
  import opened Reader
  import opened Encoder
  import opened LogFiles
  import opened History
  import opened Conservation

  // ---------------------------------------------------------------------------------------------
  // The invariant and the hypotheses it rests on
  // ---------------------------------------------------------------------------------------------

  /** The magic, whole frames, and at most one broken frame; or nothing at all. */
  ghost predicate DiskInv(w: World) {
    && (if HasContent(w.disk) then w.disk.value == MAGIC + Concat(Frames(w.records)) + w.torn
        else w.records == [] && w.torn == [])
    && AllFrames(Frames(w.records))
    && (w.torn == [] || IsTorn(w.torn))
    && (w.file.Some? && w.file.value.verified ==> w.torn == [])
  }

  /** Every whole frame opens to the text its record says it carries. */
  ghost predicate ReadableInv(env: Env, w: World)
    requires AllInRange(w.records, w.accepted)
  {
    AllCarry(OpenerOf(env.codec), Frames(w.records), Texts(env, w.records, w.accepted))
  }

  ghost predicate Inv(env: Env, w: World) {
    HistoryInv(w) && DiskInv(w) && ReadableInv(env, w)
  }

  /**
   What the environment must grant a write for the code to recover from it:
   the payload stays below 2^35 bytes; a new file is not interrupted strictly
   inside its magic; and a file that ends in a broken frame is no longer than
   the tail check reads.
   */
  ghost predicate BenignWrite(w: World, a: Attempt, c: Cargo) {
    && c.payload < SIZE_LIMIT
    && (!HasContent(w.disk) ==> !(0 < Landed(w, a, c) < |MAGIC|))
    && (HasContent(w.disk) && w.torn != [] ==> |w.disk.value| <= TAIL_CHECK_MAX_LEN)
  }

  ghost predicate Benign(env: Env, w: World, e: Event) {
    e.Write? && w.file.Some? && Touches(w.file.value, e.attempt) ==>
      BenignWrite(w, e.attempt, CargoOf(env, w.disk, w.file.value, e.attempt))
  }

  ghost predicate AllBenign(env: Env, w: World, events: seq<Event>)
    decreases events
  {
    events == [] || (Benign(env, w, events[0]) && AllBenign(env, Step(env, w, events[0]), events[1..]))
  }

  // ---------------------------------------------------------------------------------------------
  // One write
  // ---------------------------------------------------------------------------------------------

  /** The cut restores the last frame boundary. */
  lemma CutRestoresBoundary(frames: seq<Bytes>, torn: Bytes)
    requires AllFrames(frames) && (torn == [] || IsTorn(torn))
    requires torn != [] ==> |MAGIC + Concat(frames) + torn| <= TAIL_CHECK_MAX_LEN
    ensures CutTail(MAGIC + Concat(frames) + torn, TAIL_CHECK_MAX_LEN) == MAGIC + Concat(frames)
  {
    var whole := MAGIC + Concat(frames);
    var file := whole + torn;
    if torn == [] {
      assert file == whole;
      BoundaryIsNotCut(file, frames);
    } else {
      assert file[|MAGIC|..|whole|] == Concat(frames) && file[|whole|..] == torn;
      WalkerExactly(file, |whole|);
      assert file[..|whole|] == whole;
    }
  }

  lemma BaseIsBoundary(w: World, f: FileState)
    requires DiskInv(w) && w.file == Some(f) && HasContent(w.disk)
    requires w.torn != [] ==> |w.disk.value| <= TAIL_CHECK_MAX_LEN
    ensures BaseOf(w.disk, f) == MAGIC + Concat(Frames(w.records))
  {
    if f.verified {
      assert w.disk.value == MAGIC + Concat(Frames(w.records));
    } else {
      CutRestoresBoundary(Frames(w.records), w.torn);
    }
  }

  lemma FramesAppend(records: seq<Record>, r: Record)
    ensures Frames(records + [r]) == Frames(records) + [r.frame]
  {
  }

  lemma PartOfFrameIsTorn(f: Bytes, n: nat)
    requires IsFrame(f) && 0 < n < |f|
    ensures IsTorn(f[..n])
  {
    assert f[..n] < f;
  }

  /** Boundary, then as much of opening and frame as landed. */
  lemma LandedBytes(base: Bytes, opening: Bytes, frame: Bytes, n: nat)
    requires n <= |opening| + |frame|
    ensures base + (opening + frame)[..n] ==
      if n <= |opening| then base + opening[..n] else base + opening + frame[..n - |opening|]
    ensures n == |opening| + |frame| ==> base + (opening + frame)[..n] == base + opening + frame
  {
    if n > |opening| {
      assert (opening + frame)[..n] == opening + frame[..n - |opening|];
    } else {
      assert (opening + frame)[..n] == opening[..n];
    }
  }

  /** Where the frame begins: behind the magic of a new file, or on the last boundary of an old one. */
  lemma OpeningEndsOnBoundary(w: World, f: FileState)
    requires DiskInv(w) && w.file == Some(f)
    requires HasContent(w.disk) && w.torn != [] ==> |w.disk.value| <= TAIL_CHECK_MAX_LEN
    ensures BaseOf(w.disk, f) + OpeningOf(w.disk) == MAGIC + Concat(Frames(w.records))
  {
    if HasContent(w.disk) {
      BaseIsBoundary(w, f);
      assert BaseOf(w.disk, f) + [] == BaseOf(w.disk, f);
    } else {
      assert [] + MAGIC == MAGIC + Concat(Frames(w.records));
    }
  }

  /** The file after an attempt that reached it: the boundary, and as much of the frame as landed. */
  lemma BytesAfterWrite(w: World, f: FileState, a: Attempt, c: Cargo)
    requires DiskInv(w) && w.file == Some(f) && Touches(f, a) && BenignWrite(w, a, c)
    ensures var disk', m, n := DiskAfter(w.disk, f, a, c.frame), |OpeningOf(w.disk)|, Landed(w, a, c);
      if n >= m then disk' == Some(MAGIC + Concat(Frames(w.records)) + c.frame[..n - m])
      else disk' == Some([]) && !HasContent(w.disk)
  {
    var opening, n := OpeningOf(w.disk), Landed(w, a, c);
    OpeningEndsOnBoundary(w, f);
    LandedBytes(BaseOf(w.disk, f), opening, c.frame, n);
    if n == |opening| {
      assert opening[..n] == opening && c.frame[..0] == [];
      assert MAGIC + Concat(Frames(w.records)) + [] == MAGIC + Concat(Frames(w.records));
    } else if n < |opening| {
      assert BaseOf(w.disk, f) + opening[..0] == [];
    }
  }

  lemma WholeMatches(w: World, f: FileState, a: Attempt, c: Cargo)
    requires DiskInv(w) && w.file == Some(f) && Touches(f, a) && BenignWrite(w, a, c)
    requires LandsWhole(w, a, c)
    ensures DiskAfter(w.disk, f, a, c.frame) == Some(MAGIC + Concat(Frames(w.records + [RecordOf(w, f, a, c)])) + [])
  {
    BytesAfterWrite(w, f, a, c);
    FramesAppend(w.records, RecordOf(w, f, a, c));
    ConcatAppend(Frames(w.records), c.frame);
    assert c.frame[..|c.frame|] == c.frame;
    Regroup(MAGIC, Concat(Frames(w.records)), c.frame);
  }

  lemma Regroup(x: Bytes, y: Bytes, z: Bytes)
    ensures x + y + z == x + (y + z) + []
  {
  }

  lemma TornMatches(w: World, f: FileState, a: Attempt, c: Cargo)
    requires DiskInv(w) && w.file == Some(f) && Touches(f, a) && BenignWrite(w, a, c)
    requires !LandsWhole(w, a, c) && IsFrame(c.frame)
    ensures DiskAfter(w.disk, f, a, c.frame) == Some(
      if Landed(w, a, c) >= |OpeningOf(w.disk)| then MAGIC + Concat(Frames(w.records)) + TornOf(w, a, c)
      else [])
    ensures Landed(w, a, c) < |OpeningOf(w.disk)| ==> !HasContent(w.disk)
    ensures TornOf(w, a, c) == [] || IsTorn(TornOf(w, a, c))
  {
    var n, m := Landed(w, a, c), |OpeningOf(w.disk)|;
    BytesAfterWrite(w, f, a, c);
    if n > m {
      PartOfFrameIsTorn(c.frame, n - m);
    } else if n == m {
      assert c.frame[..0] == [];
    }
  }

  lemma WriteKeepsDisk(w: World, f: FileState, a: Attempt, c: Cargo)
    requires DiskInv(w) && w.file == Some(f) && Fits(f, c) && IsFrame(c.frame)
    requires Touches(f, a) ==> BenignWrite(w, a, c)
    ensures DiskInv(Append(w, f, a, c))
  {
    if Touches(f, a) {
      if LandsWhole(w, a, c) {
        WholeMatches(w, f, a, c);
        FramesAppend(w.records, RecordOf(w, f, a, c));
        AllFramesAppend(Frames(w.records), c.frame);
      } else {
        TornMatches(w, f, a, c);
      }
    }
  }

  lemma TextsIgnoreMore(env: Env, records: seq<Record>, accepted: seq<Entry>, more: seq<Entry>)
    requires AllInRange(records, accepted)
    ensures AllInRange(records, accepted + more)
    ensures Texts(env, records, accepted + more) == Texts(env, records, accepted)
  {
    DeliveredIgnoresMore(records, accepted, more);
    forall i | 0 <= i < |records|
      ensures TextOf(env, records[i], accepted + more) == TextOf(env, records[i], accepted)
    {
      var r := records[i];
      assert InRange(r, accepted);
      assert (accepted + more)[r.lo..r.hi] == accepted[r.lo..r.hi];
    }
  }

  /** A cargo opens to its header, the notice and the entries it takes. */
  ghost predicate Readable(env: Env, f: FileState, a: Attempt, c: Cargo)
    requires c.consumed <= |f.logs|
  {
    var notice := NoticeFor(env, a.layout, f.dropped, a.now);
    Carries(OpenerOf(env.codec), c.frame, FrameText(c.head, notice, f.logs[..c.consumed]))
  }

  lemma CargoIsReadable(env: Env, disk: Option<Bytes>, f: FileState, a: Attempt)
    requires env.codec.Lossless()
    ensures Readable(env, f, a, CargoOf(env, disk, f, a))
  {
    var head, notice := HeaderFor(disk, f), NoticeFor(env, a.layout, f.dropped, a.now);
    PlanTakesFirst(env.codec, f.logs, head, notice);
    FrameCarriesText(env.codec, a.rnd, PlanFrame(env.codec, f.logs, head, notice).chunks);
  }

  lemma CargoIsFrameExactly(env: Env, disk: Option<Bytes>, f: FileState, a: Attempt)
    ensures var c := CargoOf(env, disk, f, a); c.frame != [] && (IsFrame(c.frame) <==> c.payload < SIZE_LIMIT)
  {
    var plan := PlanFrame(env.codec, f.logs, HeaderFor(disk, f), NoticeFor(env, a.layout, f.dropped, a.now));
    FrameBytesIsFrameExactly(a.rnd, env.codec.deflate(plan.chunks));
  }

  lemma WriteKeepsReadable(env: Env, w: World, f: FileState, a: Attempt, c: Cargo)
    requires QueueInv(w) && w.file == Some(f) && Fits(f, c) && Readable(env, f, a, c)
    requires AllInRange(w.records, w.accepted) && ReadableInv(env, w)
    ensures var w' := Append(w, f, a, c);
      AllInRange(w'.records, w'.accepted) && ReadableInv(env, w')
  {
    if Touches(f, a) && LandsWhole(w, a, c) {
      RecordCarriesQueue(w, f, a, c);
      AllCarryAppend(env, w.records, w.accepted, RecordOf(w, f, a, c));
    }
  }

  lemma AllCarryAppend(env: Env, records: seq<Record>, accepted: seq<Entry>, r: Record)
    requires AllInRange(records, accepted) && InRange(r, accepted)
    requires AllCarry(OpenerOf(env.codec), Frames(records), Texts(env, records, accepted))
    requires Carries(OpenerOf(env.codec), r.frame, TextOf(env, r, accepted))
    ensures AllInRange(records + [r], accepted)
    ensures AllCarry(OpenerOf(env.codec), Frames(records + [r]), Texts(env, records + [r], accepted))
  {
    FramesAppend(records, r);
    assert Texts(env, records + [r], accepted) == Texts(env, records, accepted) + [TextOf(env, r, accepted)];
  }

  // ---------------------------------------------------------------------------------------------
  // Whole runs
  // ---------------------------------------------------------------------------------------------

  lemma WriteKeepsInv(env: Env, w: World, f: FileState, a: Attempt, c: Cargo)
    requires Inv(env, w) && w.file == Some(f) && Fits(f, c) && c.head == HeaderFor(w.disk, f)
    requires Readable(env, f, a, c)
    requires Touches(f, a) ==> BenignWrite(w, a, c) && IsFrame(c.frame)
    ensures Inv(env, Append(w, f, a, c))
  {
    WriteKeepsHistory(w, f, a, c);
    if Touches(f, a) {
      WriteKeepsDisk(w, f, a, c);
    }
    WriteKeepsReadable(env, w, f, a, c);
  }

  lemma StepKeepsInv(env: Env, w: World, e: Event)
    requires env.codec.Lossless() && Inv(env, w) && Benign(env, w, e)
    ensures Inv(env, Step(env, w, e))
  {
    StepKeepsHistory(env, w, e);
    match e {
      case Add(entry, now) => TextsIgnoreMore(env, w.records, w.accepted, [entry]);
      case Write(a) =>
        if w.file.Some? {
          var f := w.file.value;
          CargoIsFrameExactly(env, w.disk, f, a);
          CargoIsReadable(env, w.disk, f, a);
          WriteKeepsInv(env, w, f, a, CargoOf(env, w.disk, f, a));
        }
      case _ =>
    }
  }

  /**
   The crash-recovery invariant: under every run of logging, writes that fail
   after any number of bytes, restarts, idle removal and deletion, the file is
   the magic, whole readable frames and at most one broken one.
   */
  lemma {:induction false} RunKeepsInv(env: Env, w: World, events: seq<Event>)
    requires env.codec.Lossless() && Inv(env, w) && AllBenign(env, w, events)
    ensures Inv(env, Run(env, w, events))
    decreases events
  {
    if events != [] {
      StepKeepsInv(env, w, events[0]);
      RunKeepsInv(env, Step(env, w, events[0]), events[1..]);
    }
  }

  lemma StartIsSound(env: Env, header: Bytes, disk: Option<Bytes>)
    requires !HasContent(disk)
    ensures Inv(env, Start(header, disk))
  {
  }

  /** A file that ends on a boundary decodes in full, frame by frame, to what the records say. */
  lemma FileDecodes(env: Env, w: World)
    requires Inv(env, w) && HasContent(w.disk) && w.torn == []
    ensures ReadFile(env.codec, w.disk.value) == Some(Texts(env, w.records, w.accepted))
  {
    FileReadsBack(OpenerOf(env.codec), Frames(w.records), Texts(env, w.records, w.accepted));
    assert w.disk.value == MAGIC + Concat(Frames(w.records));
  }

  /** A successful write leaves a new, confirmed record of exactly the entries it took off the queue. */
  lemma SuccessRecords(w: World, f: FileState, a: Attempt, c: Cargo)
    requires QueueInv(w) && w.file == Some(f) && Fits(f, c) && Due(f, a) && a.fault.NoFault?
    ensures var w', r := Append(w, f, a, c), RecordOf(w, f, a, c);
      && w'.records == w.records + [r] && r.confirmed && w'.torn == [] && w'.accepted == w.accepted
      && HasContent(w'.disk) && InRange(r, w.accepted) && w'.file.Some?
      && w.accepted[r.lo..r.hi] + w'.file.value.logs == f.logs
  {
    RecordCarriesQueue(w, f, a, c);
    ContentStays(w, f, a, c);
  }

  /** After every successful write the whole file decodes, its last frame carrying the drained entries. */
  lemma SuccessDecodes(env: Env, w: World, a: Attempt)
    requires env.codec.Lossless() && Inv(env, w) && Benign(env, w, Write(a))
    requires w.file.Some? && Due(w.file.value, a) && a.fault.NoFault?
    ensures var w', f := Step(env, w, Write(a)), w.file.value;
      var r := RecordOf(w, f, a, CargoOf(env, w.disk, f, a));
      && Inv(env, w') && HasContent(w'.disk) && w'.file.Some?
      && ReadFile(env.codec, w'.disk.value) == Some(Texts(env, w'.records, w'.accepted))
      && w'.records == w.records + [r] && r.confirmed
      && w'.accepted[r.lo..r.hi] + w'.file.value.logs == f.logs
  {
    var f := w.file.value;
    CargoIsFrameExactly(env, w.disk, f, a);
    StepKeepsInv(env, w, Write(a));
    SuccessRecords(w, f, a, CargoOf(env, w.disk, f, a));
    FileDecodes(env, Step(env, w, Write(a)));
  }

  // ---------------------------------------------------------------------------------------------
  // Exactly which interruptions are recovered from
  // ---------------------------------------------------------------------------------------------

  lemma {:induction false} ShortConcatIsFrames(writes: seq<(byte, Bytes)>)
    requires |Concat(FramesWritten(writes))| < SIZE_LIMIT
    ensures AllFrames(FramesWritten(writes))
  {
    var frames := FramesWritten(writes);
    if writes != [] {
      assert frames[1..] == FramesWritten(writes[1..]);
      ShortConcatIsFrames(writes[1..]);
      FrameParts(writes[0].0, writes[0].1);
      FrameBytesIsFrameExactly(writes[0].0, writes[0].1);
    }
  }

  ghost function FramesWritten(writes: seq<(byte, Bytes)>): seq<Bytes> {
    seq(|writes|, i requires 0 <= i < |writes| => FrameBytes(writes[i].0, writes[i].1))
  }

  /** A broken frame whose size needs more than five groups is not understood once its window is full. */
  lemma OversizedIsAlien(rnd: byte, z: Bytes, n: nat, file: Bytes, k: nat)
    requires |z| >= SIZE_LIMIT && WINDOW <= n <= |FrameBytes(rnd, z)|
    requires k < |file| && file[k..] == FrameBytes(rnd, z)[..n]
    ensures ParseHead(file, k) == Alien
  {
    FrameParts(rnd, z);
    FiveGroupsExactly(|z|);
    LongFieldIsAlien(FrameBytes(rnd, z), n, file, k);
  }

  lemma LongFieldIsAlien(f: Bytes, n: nat, file: Bytes, k: nat)
    requires WINDOW <= n <= |f| && f[0] == MARKER
    requires ReadSize(f, FIXED, |f|).Size? && ReadSize(f, FIXED, |f|).next > WINDOW
    requires k < |file| && file[k..] == f[..n]
    ensures ParseHead(file, k) == Alien
  {
    assert forall i :: k <= i < |file| ==> file[i] == file[k..][i - k] == f[i - k];
    if ReadSize(file, k + FIXED, k + WINDOW).Size? {
      ReadsAlike(file, k + FIXED, k + WINDOW, f, FIXED, |f|);
    }
  }

  lemma OversizedShortIsTorn(rnd: byte, z: Bytes, n: nat)
    requires |z| >= SIZE_LIMIT && 0 < n < WINDOW
    ensures n < |FrameBytes(rnd, z)| && IsTorn(FrameBytes(rnd, z)[..n])
  {
    var f, e := FrameBytes(rnd, z), EncodeSize(|z|);
    FrameParts(rnd, z);
    FiveGroupsExactly(|z|);
    var p := f[..n];
    if n > FIXED {
      assert p[FIXED..] == e[..n - FIXED] by {
        assert f[FIXED..FIXED + |e|] == e;
      }
      CutFieldIsShort(|z|, p, FIXED);
    }
    ShortIsTorn(p);
  }

  /**
   The recovery, exactly: a file of frames the encoder wrote, broken off inside
   one more, is cut back to its last boundary if and only if it is short enough
   to be checked and the broken frame is one the walker understands.
   */
  lemma RecoveryExactly(writes: seq<(byte, Bytes)>, rnd: byte, z: Bytes, n: nat)
    requires 0 < n < |FrameBytes(rnd, z)|
    ensures var whole := MAGIC + Concat(FramesWritten(writes));
      var file := whole + FrameBytes(rnd, z)[..n];
      CutTail(file, TAIL_CHECK_MAX_LEN) == whole <==>
        |file| <= 64 * 1024 * 1024 && (|z| < 0x8_0000_0000 || n < 8)
  {
    var frames := FramesWritten(writes);
    var whole, torn := MAGIC + Concat(frames), FrameBytes(rnd, z)[..n];
    var file := whole + torn;
    if |file| <= TAIL_CHECK_MAX_LEN {
      ShortConcatIsFrames(writes);
      if |z| < SIZE_LIMIT {
        FrameBytesIsFrameExactly(rnd, z);
        PartOfFrameIsTorn(FrameBytes(rnd, z), n);
        CutRestoresBoundary(frames, torn);
      } else if n < WINDOW {
        OversizedShortIsTorn(rnd, z, n);
        CutRestoresBoundary(frames, torn);
      } else {
        assert file[|whole|..] == torn && file[|MAGIC|..|whole|] == Concat(frames);
        OversizedIsAlien(rnd, z, n, file, |whole|);
        WalkOverFrames(frames, file, |MAGIC|, |whole|);
      }
    }
  }
}
