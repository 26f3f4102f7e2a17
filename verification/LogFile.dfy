/**
 One log file: its bounded queue of entries and the append protocol that moves
 them to disk (src/add_to_log.rs, `add_to_log`; src/write_to_file.rs,
 `LogFile::write_to_file`, `LogDefinition::write_to_file`, `cut_interrupted_tail_up_to`).
 */
module LogFiles {
  import opened Bytes
  import Format
  import Messages
  import Walker
  import opened Zlib
  import opened Encoder

  const QUEUE_MAX_BYTES := 8 * 1024 * 1024

  // ---------------------------------------------------------------------------------------------
  // The queue
  // ---------------------------------------------------------------------------------------------

  /** The value of a `LogFile`; times are readings of an abstract clock. */
  datatype FileState = FileState(
    logs: seq<Entry>,
    queuedBytes: nat,
    dropped: nat,
    verified: bool,
    header: Bytes,
    pendingSince: Option<nat>,
    lastUse: nat)

  function NewFile(header: Bytes, now: nat): FileState {
    FileState([], 0, 0, false, header, None, now)
  }

  function TotalBytes(logs: seq<Entry>): nat {
    if logs == [] then 0 else |logs[0]| + TotalBytes(logs[1..])
  }

  ghost predicate WithinCap(logs: seq<Entry>) {
    TotalBytes(logs) <= QUEUE_MAX_BYTES || |logs| <= 1
  }

  /** How many of the oldest entries have to go. */
  function Shed(logs: seq<Entry>): nat {
    if TotalBytes(logs) <= QUEUE_MAX_BYTES || |logs| <= 1 then 0 else 1 + Shed(logs[1..])
  }

  /** `Shed` is the least number of drops that restores the cap, and spares the newest entry. */
  lemma {:induction false} ShedIsLeast(logs: seq<Entry>)
    ensures logs != [] ==> Shed(logs) < |logs|
    ensures Shed(logs) <= |logs| && WithinCap(logs[Shed(logs)..])
    ensures forall j :: 0 <= j < Shed(logs) ==> !WithinCap(logs[j..])
  {
    if Shed(logs) > 0 {
      ShedIsLeast(logs[1..]);
      forall j | 0 <= j < Shed(logs) ensures !WithinCap(logs[j..]) {
        if j == 0 {
          assert logs[0..] == logs;
        } else {
          assert logs[j..] == logs[1..][j - 1..];
        }
      }
      assert logs[Shed(logs)..] == logs[1..][Shed(logs) - 1..];
    } else {
      assert logs[0..] == logs;
    }
  }

  /** Without its `k` oldest entries the queue is within 8 MB or a single entry, and without fewer it is not. */
  ghost predicate Keeps(logs: seq<Entry>, k: nat)
    requires k < |logs|
  {
    && (TotalBytes(logs[k..]) <= 8 * 1024 * 1024 || |logs[k..]| == 1)
    && forall j :: 0 <= j < k ==> TotalBytes(logs[j..]) > 8 * 1024 * 1024
  }

  /** `logs` is what is left of `all` when the least number of its oldest entries has gone. */
  ghost predicate Capped(all: seq<Entry>, logs: seq<Entry>, gone: nat) {
    gone < |all| && Keeps(all, gone) && logs == all[gone..]
  }

  lemma ShedKeeps(all: seq<Entry>)
    requires all != []
    ensures Shed(all) < |all| && Capped(all, all[Shed(all)..], Shed(all))
  {
    ShedIsLeast(all);
  }

  lemma {:induction false} TotalBytesJoin(a: seq<Entry>, b: seq<Entry>)
    ensures TotalBytes(a + b) == TotalBytes(a) + TotalBytes(b)
  {
    if a == [] {
      assert a + b == b;
    } else {
      assert (a + b)[1..] == a[1..] + b;
      TotalBytesJoin(a[1..], b);
    }
  }

  lemma OneMoreEntry(logs: seq<Entry>, log: Entry)
    ensures TotalBytes(logs + [log]) == TotalBytes(logs) + |log|
    ensures Shed(logs + [log]) <= |logs|
    ensures Capped(logs + [log], (logs + [log])[Shed(logs + [log])..], Shed(logs + [log]))
  {
    TotalBytesJoin(logs, [log]);
    ShedKeeps(logs + [log]);
  }

  function Enqueue(f: FileState, entry: Entry, now: nat): FileState {
    var logs := f.logs + [entry];
    var k := Shed(logs);
    ShedIsLeast(logs);
    f.(logs := logs[k..],
       queuedBytes := TotalBytes(logs[k..]),
       dropped := f.dropped + k,
       pendingSince := if f.pendingSince.None? then Some(now) else f.pendingSince,
       lastUse := now)
  }

  /** What `drain(..consumed)` and the lines after it leave. */
  function Drain(f: FileState, consumed: nat): FileState
    requires consumed <= |f.logs|
  {
    var logs := f.logs[consumed..];
    f.(logs := logs,
       queuedBytes := TotalBytes(logs),
       dropped := 0,
       verified := true,
       pendingSince := if logs == [] then None else f.pendingSince)
  }

  // ---------------------------------------------------------------------------------------------
  // One write attempt, as a function
  // ---------------------------------------------------------------------------------------------

  /**
   How an attempt is interrupted: not at all; before it touched the file; or
   after `landed` of its bytes reached the file. A number of bytes as large as
   the whole append stands for a flush that failed or timed out.
   */
  datatype Fault = NoFault | AtOpen | AfterBytes(landed: nat)

  /** `layout` is the definition's at the time of the attempt. */
  datatype Attempt = Attempt(now: nat, interval: nat, rnd: byte, fault: Fault, layout: Messages.Layout)

  /** The libraries: compression, and the date in front of an entry. */
  datatype Env = Env(codec: Codec, stamp: Format.Stamp)

  function HasContent(disk: Option<Bytes>): bool {
    disk.Some? && disk.value != []
  }

  function Elapsed(since: nat, now: nat): nat {
    if now < since then 0 else now - since
  }

  /** Whether an attempt gets as far as touching the file. */
  predicate Due(f: FileState, a: Attempt) {
    f.logs != [] && (f.pendingSince.None? || Elapsed(f.pendingSince.value, a.now) >= a.interval)
  }

  function HeaderFor(disk: Option<Bytes>, f: FileState): Option<Bytes> {
    if !HasContent(disk) && f.header != [] then Some(f.header) else None
  }

  function NoticeFor(env: Env, layout: Messages.Layout, dropped: nat, now: nat): Option<Bytes> {
    if dropped == 0 then None
    else Some(Format.FormatEntry(env.stamp, layout, now, Format.BacklogText(dropped)))
  }

  /** What an attempt sets out to write: a frame, its header if it has one, and how many entries it takes. */
  datatype Cargo = Cargo(frame: Bytes, payload: nat, head: Option<Bytes>, consumed: nat)

  function CargoOf(env: Env, disk: Option<Bytes>, f: FileState, a: Attempt): (c: Cargo)
    ensures c.consumed <= |f.logs| && (f.logs != [] ==> c.consumed > 0)
    ensures c.head == HeaderFor(disk, f)
  {
    var head := HeaderFor(disk, f);
    var plan := PlanFrame(env.codec, f.logs, head, NoticeFor(env, a.layout, f.dropped, a.now));
    var z := env.codec.deflate(plan.chunks);
    Cargo(FrameBytes(a.rnd, z), |z|, head, plan.consumed)
  }

  /** What stands in the file when the append begins. */
  function BaseOf(disk: Option<Bytes>, f: FileState): Bytes {
    if !HasContent(disk) then []
    else if f.verified then disk.value
    else Walker.CutTail(disk.value, Walker.TAIL_CHECK_MAX_LEN)
  }

  /** A new file starts with the magic. */
  function OpeningOf(disk: Option<Bytes>): Bytes {
    if HasContent(disk) then [] else MAGIC
  }

  function Landing(fault: Fault, length: nat): (n: nat)
    ensures n <= length
  {
    match fault
    case NoFault => length
    case AtOpen => 0
    case AfterBytes(landed) => Min(landed, length)
  }

  /** The fault as the rest of the append sees it, after `n` bytes have landed. */
  function Remaining(fault: Fault, n: nat): Fault
    requires fault.AfterBytes? ==> n <= fault.landed
  {
    if fault.AfterBytes? then AfterBytes(fault.landed - n) else fault
  }

  /** Two writes in a row land like one write of both. */
  lemma LandsLikeOne(fault: Fault, base: Bytes, a: Bytes, b: Bytes)
    requires !fault.AtOpen?
    ensures var n := Landing(fault, |a|);
      base + (a + b)[..Landing(fault, |a + b|)] ==
        if n == |a| then (base + a) + b[..Landing(Remaining(fault, n), |b|)] else base + a[..n]
  {
    var n := Landing(fault, |a|);
    if n < |a| {
      assert (a + b)[..n] == a[..n];
    } else {
      var m := Landing(Remaining(fault, n), |b|);
      assert (a + b)[..|a| + m] == a + b[..m];
    }
  }

  /** The file after the attempt: the base, and as much of opening and frame as landed. */
  function DiskAfter(disk: Option<Bytes>, f: FileState, a: Attempt, frame: Bytes): Option<Bytes> {
    if !Due(f, a) || a.fault.AtOpen? then disk
    else
      var bytes := OpeningOf(disk) + frame;
      Some(BaseOf(disk, f) + bytes[..Landing(a.fault, |bytes|)])
  }

  lemma DiskInTwoWrites(disk: Option<Bytes>, f: FileState, a: Attempt, frame: Bytes)
    requires Due(f, a) && !a.fault.AtOpen?
    ensures var opening := OpeningOf(disk);
      var n := Landing(a.fault, |opening|);
      DiskAfter(disk, f, a, frame) == Some(
        if n == |opening| then BaseOf(disk, f) + opening + frame[..Landing(Remaining(a.fault, n), |frame|)]
        else BaseOf(disk, f) + opening[..n])
  {
    LandsLikeOne(a.fault, BaseOf(disk, f), OpeningOf(disk), frame);
  }

  /** The queue after the attempt: entries leave it only when nothing went wrong. */
  function FileAfter(f: FileState, a: Attempt, consumed: nat): FileState
    requires consumed <= |f.logs|
  {
    if f.logs == [] then f.(pendingSince := None)
    else if !Due(f, a) then f
    else if a.fault.NoFault? then Drain(f, consumed)
    else f.(verified := false)
  }

  // ---------------------------------------------------------------------------------------------
  // The file on disk
  // ---------------------------------------------------------------------------------------------

  /** A file on a volume that may stop working; `fault` says when. */
  class Volume {
    var content: Option<Bytes>
    var fault: Fault

    constructor (content: Option<Bytes>, fault: Fault)
      ensures this.content == content && this.fault == fault
    {
      this.content := content;
      this.fault := fault;
    }

    /**
     Cuts an interrupted frame off the file. `during` is what a write still
     running in the background makes of the file during the walk; when its
     length changed, the offset no longer describes the file, and it is left.
     */
    method CutInterruptedTail(maxLen: FileLen, during: Option<Bytes>) returns (ok: bool)
      requires content.Some?
      modifies this`content
      ensures ok <==> fault != AtOpen
      ensures !ok ==> content == old(content)
      ensures ok && during.None? ==> content == Some(Walker.CutTail(old(content).value, maxLen))
      ensures ok && during.Some? && |during.value| != |old(content).value| ==> content == during
    {
      if fault.AtOpen? {
        return false;
      }
      var walked := content.value;
      var len := |walked|;
      if during.Some? {
        content := during;
      }
      if len > maxLen {
        return true;
      }
      var reader := new Walker.SeekReader(walked);
      var walk := Walker.TruncatedFrameStart(reader, len);
      assert walked[..len] == walked;
      if walk.value.None? {
        return true;
      }
      if |content.value| != len {
        return true;
      }
      content := Some(content.value[..walk.value.value]);
      return true;
    }

    method OpenForAppend() returns (ok: bool)
      ensures ok <==> fault != AtOpen
    {
      ok := !fault.AtOpen?;
    }

    /** Creates the file, or empties it. */
    method Create() returns (ok: bool)
      modifies this`content
      ensures ok <==> fault != AtOpen
      ensures content == if ok then Some([]) else old(content)
    {
      ok := !fault.AtOpen?;
      if ok {
        content := Some([]);
      }
    }

    method WriteAll(bytes: Bytes) returns (ok: bool)
      requires content.Some? && !fault.AtOpen?
      modifies this
      ensures ok <==> Landing(old(fault), |bytes|) == |bytes|
      ensures content == Some(old(content).value + bytes[..Landing(old(fault), |bytes|)])
      ensures fault == Remaining(old(fault), Landing(old(fault), |bytes|))
    {
      var n := Landing(fault, |bytes|);
      content := Some(content.value + bytes[..n]);
      fault := Remaining(fault, n);
      ok := n == |bytes|;
    }

    method Flush() returns (ok: bool)
      ensures ok <==> fault.NoFault?
    {
      ok := fault.NoFault?;
    }
  }

  // ---------------------------------------------------------------------------------------------
  // The log file
  // ---------------------------------------------------------------------------------------------

  class LogFile {
    var logs: seq<Entry>
    var queuedBytes: nat
    var droppedLogs: nat
    var tailVerified: bool
    var header: Bytes
    var pendingSince: Option<nat>
    var lastTimeUse: nat

    ghost predicate Valid()
      reads this
    {
      queuedBytes == TotalBytes(logs)
    }

    ghost function View(): FileState
      reads this
    {
      FileState(logs, queuedBytes, droppedLogs, tailVerified, header, pendingSince, lastTimeUse)
    }

    constructor (header: Bytes, now: nat)
      ensures Valid() && View() == NewFile(header, now)
    {
      logs, queuedBytes, droppedLogs, tailVerified := [], 0, 0, false;
      this.header, pendingSince, lastTimeUse := header, None, now;
    }

    /** The queueing half of `add_to_log`. */
    method AddToLog(log: Entry, now: nat)
      requires Valid()
      modifies this
      ensures Valid() && View() == Enqueue(old(View()), log, now)
      ensures lastTimeUse == now && pendingSince == if old(pendingSince).None? then Some(now) else old(pendingSince)
      ensures droppedLogs >= old(droppedLogs)
      ensures Capped(old(logs) + [log], logs, droppedLogs - old(droppedLogs))
    {
      lastTimeUse := now;
      if pendingSince.None? {
        pendingSince := Some(now);
      }
      Push(log);
    }

    /** The entry joins the queue, and as many of the oldest as need be leave it. */
    method Push(log: Entry)
      requires Valid()
      modifies this`logs, this`queuedBytes, this`droppedLogs
      ensures var all := old(logs) + [log];
        && Shed(all) < |all| && logs == all[Shed(all)..] && queuedBytes == TotalBytes(logs)
        && droppedLogs == old(droppedLogs) + Shed(all) && Capped(all, logs, Shed(all))
    {
      OneMoreEntry(logs, log);
      queuedBytes := queuedBytes + |log|;
      logs := logs + [log];
      DropOldest();
    }

    /** The loop that restores the cap, one entry at a time from the front. */
    method DropOldest()
      requires Valid()
      modifies this`logs, this`queuedBytes, this`droppedLogs
      ensures Shed(old(logs)) <= |old(logs)| && logs == old(logs)[Shed(old(logs))..]
      ensures queuedBytes == TotalBytes(logs) && droppedLogs == old(droppedLogs) + Shed(old(logs))
    {
      ghost var all, gone := logs, 0;
      while queuedBytes > QUEUE_MAX_BYTES && |logs| > 1
        invariant gone <= |all| && logs == all[gone..]
        invariant queuedBytes == TotalBytes(logs)
        invariant droppedLogs == old(droppedLogs) + gone
        invariant gone + Shed(logs) == Shed(all)
        decreases |logs|
      {
        SuffixOfSuffix(all, gone, 1);
        queuedBytes := queuedBytes - |logs[0]|;
        logs := logs[1..];
        droppedLogs := droppedLogs + 1;
        gone := gone + 1;
      }
    }

    /** `LogFile::write_to_file`: encode by index, append, and only then drain. */
    method WriteToFile(env: Env, volume: Volume, a: Attempt, notice: Option<Bytes>) returns (ok: bool)
      requires Valid() && volume.fault == a.fault
      requires notice == NoticeFor(env, a.layout, droppedLogs, a.now)
      modifies this, volume
      ensures Valid()
      ensures volume.content ==
        DiskAfter(old(volume.content), old(View()), a, CargoOf(env, old(volume.content), old(View()), a).frame)
      ensures ok <==> !Due(old(View()), a) || a.fault.NoFault?
      ensures View() ==
        if ok then FileAfter(old(View()), a, CargoOf(env, old(volume.content), old(View()), a).consumed)
        else old(View())
    {
      if logs == [] {
        pendingSince := None;
        return true;
      }
      if pendingSince.Some? {
        var diff := Elapsed(pendingSince.value, a.now);
        if diff < a.interval {
          return true;
        }
      }

      ok := WriteDue(env, volume, a, notice);
    }

    /** The rest of it, once there is something to write and it is time. */
    method WriteDue(env: Env, volume: Volume, a: Attempt, notice: Option<Bytes>) returns (ok: bool)
      requires Valid() && volume.fault == a.fault && Due(View(), a)
      requires notice == NoticeFor(env, a.layout, droppedLogs, a.now)
      modifies this, volume
      ensures Valid()
      ensures volume.content ==
        DiskAfter(old(volume.content), old(View()), a, CargoOf(env, old(volume.content), old(View()), a).frame)
      ensures ok <==> a.fault.NoFault?
      ensures View() ==
        if ok then FileAfter(old(View()), a, CargoOf(env, old(volume.content), old(View()), a).consumed)
        else old(View())
    {
      if !a.fault.AtOpen? {
        DiskInTwoWrites(volume.content, View(), a, CargoOf(env, volume.content, View(), a).frame);
      }
      var hasContent := HasContent(volume.content);
      ghost var disk := volume.content;
      var ready := PrepareFile(volume, hasContent);
      if !ready {
        return false;
      }
      var prefix, payload, consumed := EncodeQueue(env, disk, hasContent, a, notice);
      var written := AppendFrame(volume, prefix, payload);
      if !written {
        return false;
      }
      DrainWritten(consumed);
      return true;
    }

    method EncodeQueue(env: Env, ghost disk: Option<Bytes>, hasContent: bool, a: Attempt, notice: Option<Bytes>)
      returns (prefix: Bytes, payload: Bytes, consumed: nat)
      requires hasContent == HasContent(disk) && notice == NoticeFor(env, a.layout, droppedLogs, a.now)
      ensures prefix + payload == CargoOf(env, disk, View(), a).frame
      ensures consumed == CargoOf(env, disk, View(), a).consumed
    {
      var head := if !hasContent && header != [] then Some(header) else None;
      prefix, payload, consumed := EncodeFrame(env.codec, logs, head, notice, a.rnd);
    }

    /** Cuts and opens an existing file, or creates one and starts it with the magic. */
    method PrepareFile(volume: Volume, hasContent: bool) returns (ok: bool)
      requires hasContent == HasContent(volume.content)
      modifies volume
      ensures volume.fault.AtOpen? <==> old(volume.fault).AtOpen?
      ensures old(volume.fault).AtOpen? ==> !ok && volume.content == old(volume.content)
      ensures !old(volume.fault).AtOpen? ==>
        var opening := OpeningOf(old(volume.content));
        var n := Landing(old(volume.fault), |opening|);
        && (ok <==> n == |opening|)
        && volume.fault == Remaining(old(volume.fault), n)
        && volume.content == Some(BaseOf(old(volume.content), View()) + if ok then opening else opening[..n])
    {
      if hasContent {
        if !tailVerified {
          ok := volume.CutInterruptedTail(Walker.TAIL_CHECK_MAX_LEN, None);
          if !ok {
            return;
          }
        }
        ok := volume.OpenForAppend();
        assert ok ==> volume.content.value + [] == volume.content.value;
      } else {
        ok := volume.Create();
        if !ok {
          return;
        }
        assert BaseOf(old(volume.content), View()) == [] && MAGIC[..|MAGIC|] == MAGIC;
        ok := volume.WriteAll(MAGIC);
      }
    }

    method AppendFrame(volume: Volume, prefix: Bytes, payload: Bytes) returns (ok: bool)
      requires volume.content.Some? && !volume.fault.AtOpen?
      modifies volume
      ensures ok <==> old(volume.fault).NoFault?
      ensures volume.content ==
        Some(old(volume.content).value + (prefix + payload)[..Landing(old(volume.fault), |prefix + payload|)])
    {
      LandsLikeOne(volume.fault, volume.content.value, prefix, payload);
      assert prefix[..|prefix|] == prefix;
      ok := volume.WriteAll(prefix);
      if ok {
        ok := volume.WriteAll(payload);
      }
      if ok {
        ok := volume.Flush();
      }
    }

    /** Only now, with the frame on disk, its entries leave the queue. */
    method DrainWritten(consumed: nat)
      requires Valid() && consumed <= |logs|
      modifies this
      ensures Valid() && View() == Drain(old(View()), consumed)
    {
      var i := 0;
      while i < consumed
        invariant i <= consumed <= |logs|
        invariant queuedBytes == TotalBytes(logs[i..])
        modifies this`queuedBytes
      {
        queuedBytes := queuedBytes - |logs[i]|;
        assert logs[i..][1..] == logs[i + 1..];
        i := i + 1;
      }
      logs := logs[consumed..];
      droppedLogs := 0;
      tailVerified := true;
      if logs == [] {
        pendingSince := None;
      }
    }

    /** The body of `LogDefinition::write_to_file` for one file. */
    method Write(env: Env, volume: Volume, a: Attempt)
      requires Valid() && volume.fault == a.fault
      modifies this, volume
      ensures Valid()
      ensures volume.content ==
        DiskAfter(old(volume.content), old(View()), a, CargoOf(env, old(volume.content), old(View()), a).frame)
      ensures View() == FileAfter(old(View()), a, CargoOf(env, old(volume.content), old(View()), a).consumed)
    {
      var notice: Option<Bytes> := None;
      if droppedLogs > 0 {
        notice := Some(Format.FormatEntry(env.stamp, a.layout, a.now, Format.BacklogText(droppedLogs)));
      }
      var ok := WriteToFile(env, volume, a, notice);
      if !ok {
        tailVerified := false;
      }
    }
  }
}
