/**
 What the write that creates a file decides for good: whether the file can ever
 be read, and whether it will ever carry its header.
 */
module NewFiles {
  import opened Bytes
  import Messages
  import SizeField
  import Framing
  import Walker
  import Reader
  import Conservation
  import opened Zlib
  import opened Encoder
  import opened LogFiles
  import opened History
  import opened Recovery

  ghost predicate NoDelete(events: seq<Event>) {
    forall i :: 0 <= i < |events| ==> !events[i].Delete?
  }

  // ---------------------------------------------------------------------------------------------
  // The header
  // ---------------------------------------------------------------------------------------------

  /** `w'` is a later state of the same file: it has kept its frames and added only frames without header. */
  ghost predicate Extends(w: World, w': World) {
    && HasContent(w'.disk)
    && w.records <= w'.records
    && (forall i :: |w.records| <= i < |w'.records| ==> w'.records[i].head.None?)
  }

  lemma StepExtends(env: Env, w: World, e: Event)
    requires HasContent(w.disk) && !e.Delete?
    ensures Extends(w, Step(env, w, e))
  {
    if e.Write? && w.file.Some? {
      var f := w.file.value;
      Conservation.ContentStays(w, f, e.attempt, CargoOf(env, w.disk, f, e.attempt));
    }
  }

  lemma {:induction false} RunExtends(env: Env, w: World, events: seq<Event>)
    requires HasContent(w.disk) && NoDelete(events)
    ensures Extends(w, Run(env, w, events))
    decreases events
  {
    if events != [] {
      StepExtends(env, w, events[0]);
      RunExtends(env, Step(env, w, events[0]), events[1..]);
    }
  }

  /**
   The header is in the file, at the front of its first frame, exactly when the
   very write that created the file landed whole. However many attempts follow,
   a header lost to the first one never comes back.
   */
  lemma HeaderExactly(env: Env, w: World, a: Attempt, events: seq<Event>)
    requires Conservation.HistoryInv(w) && !HasContent(w.disk) && w.file.Some?
    requires w.file.value.header != [] && Touches(w.file.value, a)
    requires HasContent(Step(env, w, Write(a)).disk) && NoDelete(events)
    requires Run(env, Step(env, w, Write(a)), events).records != []
    ensures var c := CargoOf(env, w.disk, w.file.value, a);
      var first := Run(env, Step(env, w, Write(a)), events).records[0];
      && (first.head.Some? <==> LandsWhole(w, a, c))
      && (first.head.Some? ==> first.head == Some(w.file.value.header) && first.frame == c.frame)
  {
    RunExtends(env, Step(env, w, Write(a)), events);
  }

  /** What a reader gets for a frame: its header if it has one, its notice, its entries. */
  ghost function Says(env: Env, head: Option<Bytes>, r: Record, accepted: seq<Entry>): Bytes
    requires InRange(r, accepted)
  {
    FrameText(head, NoticeFor(env, r.layout, r.noticed, r.at), accepted[r.lo..r.hi])
  }

  /**
   The same in the decoded text: the header's line leads the first block exactly
   when the write that created the file landed whole, and no other block has one.
   */
  lemma HeaderLeadsExactly(env: Env, w: World, a: Attempt, events: seq<Event>)
    requires env.codec.Lossless() && Inv(env, w) && !HasContent(w.disk) && w.file.Some?
    requires w.file.value.header != [] && Touches(w.file.value, a) && NoDelete(events)
    requires HasContent(Step(env, w, Write(a)).disk)
    requires AllBenign(env, w, [Write(a)] + events)
    requires var w' := Run(env, Step(env, w, Write(a)), events); w'.records != [] && w'.torn == []
    ensures var w' := Run(env, Step(env, w, Write(a)), events);
      var whole := LandsWhole(w, a, CargoOf(env, w.disk, w.file.value, a));
      && HasContent(w'.disk) && AllInRange(w'.records, w'.accepted)
      && var blocks := Reader.ReadFile(env.codec, w'.disk.value);
      && blocks.Some? && |blocks.value| == |w'.records|
      && forall i :: 0 <= i < |w'.records| ==>
          var head := if i == 0 && whole then Some(w.file.value.header) else None;
          InRange(w'.records[i], w'.accepted) && blocks.value[i] == Says(env, head, w'.records[i], w'.accepted)
  {
    var w1 := Step(env, w, Write(a));
    var w' := Run(env, w1, events);
    assert ([Write(a)] + events)[1..] == events;
    StepKeepsInv(env, w, Write(a));
    RunKeepsInv(env, w1, events);
    HeaderExactly(env, w, a, events);
    FileDecodes(env, w');
    TextsSay(env, w'.records, w'.accepted);
  }

  lemma TextsSay(env: Env, records: seq<Record>, accepted: seq<Entry>)
    requires AllInRange(records, accepted)
    ensures forall i :: 0 <= i < |records| ==>
      InRange(records[i], accepted) &&
      Texts(env, records, accepted)[i] == Says(env, records[i].head, records[i], accepted)
  {
  }

  // ---------------------------------------------------------------------------------------------
  // The magic
  // ---------------------------------------------------------------------------------------------

  /** The first `j` bytes of the magic, and frames behind them. */
  ghost predicate Stunted(disk: Option<Bytes>, j: nat) {
    0 < j < |MAGIC| && disk.Some? && j <= |disk.value| && disk.value[..j] == MAGIC[..j] &&
    (j < |disk.value| ==> disk.value[j] == Framing.MARKER)
  }

  lemma StuntedHasNoMagic(file: Bytes, j: nat)
    requires Stunted(Some(file), j)
    ensures !(MAGIC <= file) && Walker.CutTail(file, Walker.TAIL_CHECK_MAX_LEN) == file
  {
    assert forall i :: 0 <= i < |MAGIC| ==> MAGIC[i] != Framing.MARKER;
  }

  lemma CargoStartsWithMarker(env: Env, disk: Option<Bytes>, f: FileState, a: Attempt)
    ensures var frame := CargoOf(env, disk, f, a).frame; frame != [] && frame[0] == Framing.MARKER
  {
    var plan := PlanFrame(env.codec, f.logs, HeaderFor(disk, f), NoticeFor(env, a.layout, f.dropped, a.now));
    FrameParts(a.rnd, env.codec.deflate(plan.chunks));
  }

  lemma StepKeepsStunted(env: Env, w: World, e: Event, j: nat)
    requires Stunted(w.disk, j) && !e.Delete?
    ensures Stunted(Step(env, w, e).disk, j)
  {
    if e.Write? && w.file.Some? && Touches(w.file.value, e.attempt) {
      var f, a := w.file.value, e.attempt;
      var frame := CargoOf(env, w.disk, f, a).frame;
      CargoStartsWithMarker(env, w.disk, f, a);
      StuntedHasNoMagic(w.disk.value, j);
      StuntedGrows(w.disk.value, frame, Landing(a.fault, |[] + frame|), j);
      assert [] + frame == frame;
    }
  }

  lemma StuntedGrows(file: Bytes, frame: Bytes, n: nat, j: nat)
    requires Stunted(Some(file), j) && n <= |frame| && frame != [] && frame[0] == Framing.MARKER
    ensures Stunted(Some(file + frame[..n]), j)
  {
    assert (file + frame[..n])[..j] == file[..j];
  }

  lemma {:induction false} RunKeepsStunted(env: Env, w: World, events: seq<Event>, j: nat)
    requires Stunted(w.disk, j) && NoDelete(events)
    ensures Stunted(Run(env, w, events).disk, j)
    decreases events
  {
    if events != [] {
      StepKeepsStunted(env, w, events[0], j);
      RunKeepsStunted(env, Step(env, w, events[0]), events[1..], j);
    }
  }

  lemma CreationCutInMagic(env: Env, w: World, f: FileState, a: Attempt)
    requires !HasContent(w.disk) && w.file == Some(f) && Touches(f, a)
    requires 0 < Landed(w, a, CargoOf(env, w.disk, f, a)) < |MAGIC|
    ensures Stunted(WriteStep(env, w, f, a).disk, Landed(w, a, CargoOf(env, w.disk, f, a)))
  {
    var c := CargoOf(env, w.disk, f, a);
    var n := Landed(w, a, c);
    LandedBytes([], MAGIC, c.frame, n);
    assert [] + MAGIC[..n] == MAGIC[..n];
  }

  /**
   A file interrupted while it is created, and then appended to by any run of
   writes that themselves meet the hypotheses and leave it on a boundary, can be
   read exactly when the interruption did not fall strictly inside the magic.
   */
  lemma CreationExactly(env: Env, w: World, a: Attempt, events: seq<Event>)
    requires env.codec.Lossless() && Inv(env, w) && !HasContent(w.disk)
    requires w.file.Some? && Touches(w.file.value, a)
    requires CargoOf(env, w.disk, w.file.value, a).payload < SizeField.SIZE_LIMIT
    requires AllBenign(env, Step(env, w, Write(a)), events) && NoDelete(events)
    requires var w' := Run(env, Step(env, w, Write(a)), events); HasContent(w'.disk) && w'.torn == []
    ensures var w' := Run(env, Step(env, w, Write(a)), events);
      Reader.ReadFile(env.codec, w'.disk.value).Some? <==>
        !(0 < Landed(w, a, CargoOf(env, w.disk, w.file.value, a)) < |MAGIC|)
  {
    var f := w.file.value;
    var n := Landed(w, a, CargoOf(env, w.disk, f, a));
    var w1 := Step(env, w, Write(a));
    var w' := Run(env, w1, events);
    if 0 < n < |MAGIC| {
      CreationCutInMagic(env, w, f, a);
      RunKeepsStunted(env, w1, events, n);
      StuntedHasNoMagic(w'.disk.value, n);
    } else {
      StepKeepsInv(env, w, Write(a));
      RunKeepsInv(env, w1, events);
      FileDecodes(env, w');
    }
  }

  // ---------------------------------------------------------------------------------------------
  // One interruption is enough
  // ---------------------------------------------------------------------------------------------

  const PLAIN := Messages.Layout("", Messages.NoSplit, true, false)

  /** The creation of a file for `entry`, interrupted after `n` bytes, and the next attempt, which succeeds. */
  function TriedTwice(entry: Entry, n: nat): seq<Event> {
    [Add(entry, 0), Write(Attempt(0, 0, 0, AfterBytes(n), PLAIN)), Write(Attempt(0, 0, 0, NoFault, PLAIN))]
  }

  lemma RunOfThree(env: Env, w: World, a: Event, b: Event, c: Event)
    ensures Run(env, w, [a, b, c]) == Step(env, Step(env, Step(env, w, a), b), c)
  {
    var w1 := Step(env, w, a);
    var w2 := Step(env, w1, b);
    assert [a, b, c][1..] == [b, c] && [b, c][1..] == [c] && [c][1..] == [];
    assert Run(env, w2, [c]) == Step(env, w2, c);
    assert Run(env, w1, [b, c]) == Run(env, w2, [c]);
  }

  /** An attempt that leaves part of what it set out to write, with its entry still queued. */
  lemma FirstTry(env: Env, header: Bytes, entry: Entry, n: nat)
    requires 0 < n <= |MAGIC|
    ensures var queued := Step(env, Start(header, None), Add(entry, 0));
      var w := Step(env, queued, Write(Attempt(0, 0, 0, AfterBytes(n), PLAIN)));
      && w.disk == Some(MAGIC[..n]) && w.records == [] && w.fates == []
      && w.file.Some? && w.file.value.logs == [entry] && !w.file.value.verified && w.file.value.pendingSince == Some(0)
  {
    var w1 := Step(env, Start(header, None), Add(entry, 0));
    var f, a := w1.file.value, Attempt(0, 0, 0, AfterBytes(n), PLAIN);
    var frame := CargoOf(env, w1.disk, f, a).frame;
    CargoStartsWithMarker(env, w1.disk, f, a);
    LandedBytes([], MAGIC, frame, n);
    assert [] + MAGIC[..n] == MAGIC[..n];
  }

  lemma TwoTries(env: Env, header: Bytes, entry: Entry, n: nat)
    ensures var queued := Step(env, Start(header, None), Add(entry, 0));
      var w := Step(env, queued, Write(Attempt(0, 0, 0, AfterBytes(n), PLAIN)));
      Run(env, Start(header, None), TriedTwice(entry, n)) == Step(env, w, Write(Attempt(0, 0, 0, NoFault, PLAIN)))
  {
    var events := TriedTwice(entry, n);
    RunOfThree(env, Start(header, None), events[0], events[1], events[2]);
  }

  /** A file without its header: whatever the codec, one interruption right behind the magic is enough. */
  lemma HeaderCanBeLost(env: Env, header: Bytes, entry: Entry)
    requires header != []
    ensures var w := Run(env, Start(header, None), TriedTwice(entry, |MAGIC|));
      |w.records| == 1 && w.records[0].head.None? && w.records[0].confirmed
  {
    TwoTries(env, header, entry, |MAGIC|);
    FirstTry(env, header, entry, |MAGIC|);
  }

  /** The next attempt takes the entry off the queue, and leaves the file as short of its magic as it was. */
  lemma SecondTry(env: Env, w: World, entry: Entry)
    requires Stunted(w.disk, 5) && w.fates == [] && w.file.Some?
    requires w.file.value.logs == [entry] && w.file.value.pendingSince == Some(0)
    ensures var w' := Step(env, w, Write(Attempt(0, 0, 0, NoFault, PLAIN)));
      w'.disk.Some? && Reader.ReadFile(env.codec, w'.disk.value) == None && w'.fates == [Drained]
  {
    var e := Write(Attempt(0, 0, 0, NoFault, PLAIN));
    StepKeepsStunted(env, w, e, 5);
    StuntedHasNoMagic(Step(env, w, e).disk.value, 5);
  }

  /** A file that cannot be read, its entry counted as written: one interruption inside the magic is enough. */
  lemma MagicCanBeCut(env: Env, header: Bytes, entry: Entry)
    ensures var w := Run(env, Start(header, None), TriedTwice(entry, 5));
      w.disk.Some? && Reader.ReadFile(env.codec, w.disk.value) == None && w.fates == [Drained]
  {
    TwoTries(env, header, entry, 5);
    FirstTry(env, header, entry, 5);
    assert MAGIC[..5][..5] == MAGIC[..5];
    var w := Step(env, Start(header, None), Add(entry, 0));
    SecondTry(env, Step(env, w, Write(Attempt(0, 0, 0, AfterBytes(5), PLAIN))), entry);
  }

  // ---------------------------------------------------------------------------------------------
  // The hypotheses can be met
  // ---------------------------------------------------------------------------------------------

  /** A codec that stores what it is given. */
  function Storing(): Codec {
    Codec((chunks: seq<Bytes>) => Framing.Concat(chunks), (z: Bytes) => Some(z), (_: seq<Bytes>) => 0)
  }

  const ENTRY: Entry := [0x61]

  lemma StoredPayload(env: Env, disk: Option<Bytes>, f: FileState, a: Attempt)
    requires env.codec == Storing() && f.header == [] && f.dropped == 0 && f.logs == [ENTRY]
    ensures CargoOf(env, disk, f, a).payload == 2
  {
    PlanTakesFirst(env.codec, f.logs, None, None);
    assert f.logs[..1] == [ENTRY] && [ENTRY][1..] == [];
    assert HeaderFor(disk, f) == None && Lines([ENTRY]) == ENTRY + [NEWLINE] + [];
  }

  /** Two bytes of the first frame are on disk, and its entry is still queued. */
  ghost predicate IsBrokenOff(env: Env, w: World) {
    && Inv(env, w) && w.records == [] && w.disk.Some? && |w.disk.value| == 12
    && w.file.Some? && w.file.value.header == [] && w.file.value.dropped == 0
    && w.file.value.logs == [ENTRY] && w.file.value.pendingSince == Some(0)
  }

  /** An attempt that gets two bytes into its frame. */
  lemma BrokenOff(env: Env, w: World)
    requires env.codec == Storing() && env.codec.Lossless() && w == Step(env, Start([], None), Add(ENTRY, 0))
    ensures var e := Write(Attempt(0, 0, 0, AfterBytes(12), PLAIN));
      Inv(env, w) && Benign(env, w, e) && IsBrokenOff(env, Step(env, w, e))
  {
    var f, a := w.file.value, Attempt(0, 0, 0, AfterBytes(12), PLAIN);
    StartIsSound(env, [], None);
    StepKeepsInv(env, Start([], None), Add(ENTRY, 0));
    StoredPayload(env, w.disk, f, a);
    StoredFrame(env, w.disk, f, a);
    BytesAfterWrite(w, f, a, CargoOf(env, w.disk, f, a));
    assert Frames(w.records) == [];
    StepKeepsInv(env, w, Write(a));
  }

  lemma StoredFrame(env: Env, disk: Option<Bytes>, f: FileState, a: Attempt)
    ensures var c := CargoOf(env, disk, f, a); |c.frame| > c.payload + Framing.FIXED
  {
    var plan := PlanFrame(env.codec, f.logs, HeaderFor(disk, f), NoticeFor(env, a.layout, f.dropped, a.now));
    FrameParts(a.rnd, env.codec.deflate(plan.chunks));
  }

  lemma NextTryReads(env: Env, w: World)
    requires env.codec == Storing() && env.codec.Lossless() && IsBrokenOff(env, w)
    ensures var e := Write(Attempt(0, 0, 0, NoFault, PLAIN));
      && Benign(env, w, e)
      && var disk := Step(env, w, e).disk;
      disk.Some? && Reader.ReadFile(env.codec, disk.value).Some? && |Reader.ReadFile(env.codec, disk.value).value| == 1
  {
    var a := Attempt(0, 0, 0, NoFault, PLAIN);
    StoredPayload(env, w.disk, w.file.value, a);
    SuccessDecodes(env, w, a);
  }

  /**
   A file whose first frame is interrupted behind the magic, and written again:
   every hypothesis of the recovery holds, and the whole file can be read.
   */
  lemma RecoveryHappens(env: Env)
    requires env.codec == Storing()
    ensures var start, events := Start([], None), TriedTwice(ENTRY, 12);
      && env.codec.Lossless() && Inv(env, start) && AllBenign(env, start, events)
      && var disk := Run(env, start, events).disk;
      disk.Some? && Reader.ReadFile(env.codec, disk.value).Some? && |Reader.ReadFile(env.codec, disk.value).value| == 1
  {
    var start, events := Start([], None), TriedTwice(ENTRY, 12);
    var w := Step(env, start, events[0]);
    StartIsSound(env, [], None);
    RunOfThree(env, start, events[0], events[1], events[2]);
    BrokenOff(env, w);
    NextTryReads(env, Step(env, w, events[1]));
    BenignThree(env, start, events[0], events[1], events[2]);
  }

  lemma BenignThree(env: Env, w: World, a: Event, b: Event, c: Event)
    requires Benign(env, w, a) && Benign(env, Step(env, w, a), b) && Benign(env, Step(env, Step(env, w, a), b), c)
    ensures AllBenign(env, w, [a, b, c])
  {
    assert [a, b, c][1..] == [b, c] && [b, c][1..] == [c] && [c][1..] == [];
    assert AllBenign(env, Step(env, Step(env, w, a), b), [c]);
    assert AllBenign(env, Step(env, w, a), [b, c]);
  }
}
