/**
 The tail walker: finds the frame that a log file ends in the middle of
 (src/write_to_file.rs, `truncated_frame_start`, `cut_interrupted_tail_up_to`).
 */
module Walker {
  import opened Bytes
  import opened SizeField
  import opened Framing

  const WINDOW := 8

  // ---------------------------------------------------------------------------------------------
  // The walk as a function of the file's bytes
  // ---------------------------------------------------------------------------------------------

  /** What stands at a position of the file; a whole frame comes with the position behind it. */
  datatype Head = Whole(next: nat) | Cut | Alien

  function ParseHead(file: Bytes, pos: nat): (h: Head)
    requires pos < |file|
    ensures h.Whole? ==> pos + FIXED < h.next <= |file|
  {
    var end := Min(pos + WINDOW, |file|);
    if file[pos] != MARKER then Alien
    else if end <= pos + FIXED then Cut
    else match ReadSize(file, pos + FIXED, end)
      case Short => if end < pos + WINDOW then Cut else Alien
      case Size(v, next) => if next + v > |file| then Cut else Whole(next + v)
  }

  /** Where the frame starts that the file ends inside of, walking from `pos`. */
  function TornFrom(file: Bytes, pos: nat): (r: Option<nat>)
    requires pos <= |file|
    ensures r.Some? ==> pos <= r.value < |file|
    decreases |file| - pos
  {
    if pos == |file| then None
    else match ParseHead(file, pos)
      case Alien => None
      case Cut => Some(pos)
      case Whole(next) => TornFrom(file, next)
  }

  function TruncatedFrame(file: Bytes): (r: Option<nat>)
    ensures r.Some? ==> |MAGIC| <= r.value < |file|
  {
    if MAGIC <= file then TornFrom(file, |MAGIC|) else None
  }

  // ---------------------------------------------------------------------------------------------
  // The walk by a seeking reader
  // ---------------------------------------------------------------------------------------------

  datatype IoResult<+T> = Ok(value: T) | Err

  class SeekReader {
    const data: Bytes
    var at: int

    constructor (data: Bytes)
      ensures this.data == data && at == 0
    {
      this.data := data;
      at := 0;
    }

    /** Reads exactly `n` bytes, or fails when the data ends first. */
    method ReadExact(n: nat) returns (r: IoResult<Bytes>)
      requires 0 <= at
      modifies this
      ensures r.Ok? <==> old(at) + n <= |data|
      ensures r.Ok? ==> r.value == data[old(at)..old(at) + n] && at == old(at) + n
      ensures 0 <= at
    {
      if at + n <= |data| {
        r := Ok(data[at..at + n]);
        at := at + n;
      } else {
        r := Err;
      }
    }

    method SeekRelative(offset: int) returns (r: IoResult<()>)
      requires 0 <= at
      modifies this
      ensures r.Ok? <==> 0 <= old(at) + offset
      ensures at == if r.Ok? then old(at) + offset else old(at)
    {
      if 0 <= at + offset {
        at := at + offset;
        r := Ok(());
      } else {
        r := Err;
      }
    }
  }

  /** How the source's inner loop over the window ends. */
  datatype FieldOutcome = Ended | Oversized | Field(size: nat, next: nat)

  ghost function Outcome(available: nat, read: SizeParse): FieldOutcome {
    match read
    case Short => if available < WINDOW then Ended else Oversized
    case Size(v, next) => Field(v, next)
  }

  /** The source's inner loop: groups are shifted into an accumulator, low group first. */
  function ReadShifted(s: Bytes, i: nat, end: nat, size: nat, shift: nat): SizeParse
    requires i <= end <= |s|
    decreases end - i
  {
    if i == end then Short
    else
      var b := Xor(s[i], SIZE_MASK);
      var size' := size + Shl(LowBits(b), shift);
      if b < 0x80 then Size(size', i + 1) else ReadShifted(s, i + 1, end, size', shift + 7)
  }

  lemma {:induction false} ShiftingReadsTheSize(s: Bytes, i: nat, end: nat, size: nat, shift: nat)
    requires i <= end <= |s|
    ensures match ReadSize(s, i, end)
      case Short => ReadShifted(s, i, end, size, shift) == Short
      case Size(v, next) => ReadShifted(s, i, end, size, shift) == Size(size + Shl(v, shift), next)
    decreases end - i
  {
    if i < end {
      var b := Xor(s[i], SIZE_MASK);
      if b >= 0x80 {
        ShiftingReadsTheSize(s, i + 1, end, size + Shl(LowBits(b), shift), shift + 7);
        if ReadSize(s, i + 1, end).Size? {
          ShlJoins(shift, b - 0x80, ReadSize(s, i + 1, end).value);
        }
      }
    }
  }

  lemma ShlJoins(shift: nat, g: nat, v: nat)
    ensures Shl(g + 0x80 * v, shift) == Shl(g, shift) + Shl(v, shift + 7)
  {
    ShlAdds(g, 0x80 * v, shift);
    ShlBySeven(v, shift);
  }

  /** What `groups` groups of seven bits can hold. */
  function GroupLimit(groups: nat): nat {
    if groups == 0 then 1 else 0x80 * GroupLimit(groups - 1)
  }

  lemma {:induction false} GroupLimitShifts(groups: nat)
    ensures GroupLimit(groups) == Shl(1, 7 * groups)
  {
    if groups > 0 {
      GroupLimitShifts(groups - 1);
      ShlBySeven(1, 7 * (groups - 1));
    }
  }

  /** A group shifted in behind the others fits behind them: nothing is carried, nothing is lost. */
  lemma GroupFits(size: nat, low: nat, groups: nat)
    requires size < GroupLimit(groups) && low < 0x80
    ensures size + Shl(low, 7 * groups) < GroupLimit(groups + 1)
  {
    GroupLimitShifts(groups);
    GroupLimitShifts(groups + 1);
    ShlGrows(low, 0x7f, 7 * groups);
    ShlAdds(0x7f, 1, 7 * groups);
    ShlBySeven(1, 7 * groups);
  }

  lemma FiveGroupsLimit(groups: nat)
    requires groups <= MAX_GROUPS
    ensures GroupLimit(groups) <= SIZE_LIMIT
  {
    assert GroupLimit(1) == 0x80 && GroupLimit(2) == 0x4000 && GroupLimit(3) == 0x20_0000;
    assert GroupLimit(4) == 0x1000_0000 && GroupLimit(5) == SIZE_LIMIT;
  }

  /** One round of the loop below: the next group joins the size, in the source's `u64`. */
  method AddGroup(size: u64, b: byte, shift: nat, ghost groups: nat) returns (sum: u64)
    requires groups < MAX_GROUPS && shift == 7 * groups && size < GroupLimit(groups)
    ensures sum == size + Shl(LowBits(b), shift) && sum < GroupLimit(groups + 1) <= SIZE_LIMIT
  {
    GroupFits(size, LowBits(b), groups);
    FiveGroupsLimit(groups + 1);
    sum := size + Shl(LowBits(b), shift);
  }

  /** What the loop below has still to read, when `i` bytes of the prefix are behind it. */
  ghost function StillToRead(prefix: Bytes, i: nat, size: nat, shift: nat): SizeParse {
    if i <= |prefix| then ReadShifted(prefix, i, |prefix|, size, shift) else Short
  }

  /** The source ORs groups that share no bits, which is the sum written here. */
  method ReadField(prefix: Bytes) returns (r: FieldOutcome)
    requires 0 < |prefix| <= WINDOW
    ensures r == Outcome(|prefix|, StillToRead(prefix, FIXED, 0, 0))
    ensures r.Field? ==> r.size < SIZE_LIMIT && FIXED < r.next <= |prefix|
  {
    var size: u64, i: nat, shift: nat := 0, FIXED, 0;
    while true
      invariant shift == 7 * (i - FIXED) && FIXED <= i < FIXED + MAX_GROUPS
      invariant size < GroupLimit(i - FIXED)
      invariant StillToRead(prefix, i, size, shift) == StillToRead(prefix, FIXED, 0, 0)
      invariant i > FIXED ==> i <= |prefix|
      decreases WINDOW - i
    {
      if i >= |prefix| {
        return Ended;
      }
      var b := Xor(prefix[i], SIZE_MASK);
      size := AddGroup(size, b, shift, i - FIXED);
      i := i + 1;
      if b < 0x80 {
        return Field(size, i);
      }
      shift := shift + 7;
      if shift > 28 {
        return Oversized;
      }
    }
  }

  /** What the source's loop body makes of a window read at `pos`. */
  ghost function Verdict(window: Bytes, pos: nat, len: nat): Head
    requires window != []
  {
    if window[0] != MARKER then Alien
    else match Outcome(|window|, StillToRead(window, FIXED, 0, 0))
      case Ended => Cut
      case Oversized => Alien
      case Field(size, i) => if pos + i + size > len then Cut else Whole(pos + i + size)
  }

  /** The size field reads in the window as it does in the file. */
  lemma WindowReadsAlike(file: Bytes, pos: nat, end: nat)
    requires pos + FIXED < end <= |file|
    ensures match ReadSize(file, pos + FIXED, end)
      case Short => ReadSize(file[pos..end], FIXED, end - pos) == Short
      case Size(v, next) => ReadSize(file[pos..end], FIXED, end - pos) == Size(v, next - pos)
  {
    var window := file[pos..end];
    if ReadSize(file, pos + FIXED, end).Size? {
      ReadsAlike(file, pos + FIXED, end, window, FIXED, |window|);
    } else if ReadSize(window, FIXED, |window|).Size? {
      ReadsAlike(window, FIXED, |window|, file, pos + FIXED, end);
    }
  }

  /** The window read at `pos` tells what the whole file would. */
  lemma WindowDecides(file: Bytes, pos: nat)
    requires pos < |file|
    ensures ParseHead(file, pos) == Verdict(file[pos..Min(pos + WINDOW, |file|)], pos, |file|)
  {
    var end := Min(pos + WINDOW, |file|);
    var window := file[pos..end];
    if end > pos + FIXED {
      WindowReadsAlike(file, pos, end);
      ShiftingReadsTheSize(window, FIXED, |window|, 0, 0);
    }
  }

  /** `len` is what `metadata` reported; `reader` stands at the start of the file. */
  method TruncatedFrameStart(reader: SeekReader, len: FileLen) returns (r: IoResult<Option<nat>>)
    requires reader.at == 0
    modifies reader
    ensures len <= |reader.data| ==> r == Ok(TruncatedFrame(reader.data[..len]))
    ensures r.Ok? && r.value.Some? ==> |MAGIC| <= r.value.value < len
  {
    if len < |MAGIC| {
      return Ok(None);
    }
    var magic := reader.ReadExact(|MAGIC|);
    if magic.Err? {
      return Err;
    }
    assert len <= |reader.data| ==> magic.value == reader.data[..len][..|MAGIC|];
    if magic.value != MAGIC {
      return Ok(None);
    }

    var pos: u64 := |MAGIC|;
    while pos < len
      invariant |MAGIC| <= pos <= len
      invariant reader.at == pos
      invariant len <= |reader.data| ==> TruncatedFrame(reader.data[..len]) == TornFrom(reader.data[..len], pos)
      decreases len - pos
    {
      var head := ExamineFrame(reader, pos, len);
      if head.Err? {
        return Err;
      }
      match head.value {
        case Alien =>
          return Ok(None);
        case Cut =>
          return Ok(Some(pos));
        case Whole(next) =>
          pos := next;
      }
    }
    return Ok(None);
  }

  /**
   The body of the walk's loop: reads the window at `pos`, and moves the reader,
   forwards or back, to the end of a whole frame.
   */
  method ExamineFrame(reader: SeekReader, pos: u64, len: FileLen) returns (r: IoResult<Head>)
    requires reader.at == pos < len
    modifies reader
    ensures len <= |reader.data| ==> r == Ok(ParseHead(reader.data[..len], pos))
    ensures r.Ok? && r.value.Whole? ==> pos < r.value.next <= len && reader.at == r.value.next
  {
    var available := Min(WINDOW, len - pos);
    var prefix := reader.ReadExact(available);
    if prefix.Err? {
      return Err;
    }
    if len <= |reader.data| {
      SliceOfPrefix(reader.data, len, pos, pos + available);
      WindowDecides(reader.data[..len], pos);
    }
    var head := JudgeWindow(prefix.value, pos, len);
    if head.Whole? {
      var moved := SkipTo(reader, head.next, pos + available);
      r := if moved.Err? then Err else Ok(head);
    } else {
      r := Ok(head);
    }
  }

  /** The sums are the source's `u64`: none overflows, whatever size the field holds. */
  method JudgeWindow(window: Bytes, pos: u64, len: FileLen) returns (head: Head)
    requires 0 < |window| <= WINDOW && pos + |window| <= len
    ensures head == Verdict(window, pos, len)
    ensures head.Whole? ==> pos < head.next <= len
  {
    if window[0] != MARKER {
      return Alien;
    }
    var field := ReadField(window);
    match field {
      case Ended =>
        head := Cut;
      case Oversized =>
        head := Alien;
      case Field(size, i) =>
        var next: u64 := pos + i + size;
        head := if next > len then Cut else Whole(next);
    }
  }

  /** The relative seek from where the window ended: the distance is the source's `i64`. */
  method SkipTo(reader: SeekReader, next: FileLen, from: FileLen) returns (moved: IoResult<()>)
    requires reader.at == from
    modifies reader
    ensures moved.Ok? && reader.at == next
  {
    var distance: i64 := next - from;
    moved := reader.SeekRelative(distance);
  }

  // ---------------------------------------------------------------------------------------------
  // What the walk's answer means
  // ---------------------------------------------------------------------------------------------

  lemma WholeIsFrame(file: Bytes, pos: nat)
    requires pos < |file| && ParseHead(file, pos).Whole?
    ensures IsFrame(file[pos..ParseHead(file, pos).next])
  {
    var f := file[pos..ParseHead(file, pos).next];
    var end := Min(pos + WINDOW, |file|);
    ReadsAlike(file, pos + FIXED, end, f, FIXED, |f|);
  }

  lemma FrameIsWhole(file: Bytes, pos: nat, next: nat)
    requires pos < next <= |file| && IsFrame(file[pos..next])
    ensures ParseHead(file, pos) == Whole(next)
  {
    var f := file[pos..next];
    ReadsAlike(f, FIXED, |f|, file, pos + FIXED, Min(pos + WINDOW, |file|));
  }

  lemma TornIsCut(file: Bytes, pos: nat)
    requires pos < |file| && IsTorn(file[pos..])
    ensures ParseHead(file, pos) == Cut
  {
    var p := file[pos..];
    var f :| IsFrame(f) && p < f;
    var end := Min(pos + WINDOW, |file|);
    assert forall k :: pos <= k < |file| ==> file[k] == p[k - pos] == f[k - pos];
    if end > pos + FIXED && ReadSize(file, pos + FIXED, end).Size? {
      ReadsAlike(file, pos + FIXED, end, f, FIXED, |f|);
    }
    if end == pos + WINDOW {
      ReadsAlike(f, FIXED, |f|, file, pos + FIXED, end);
    }
  }

  /** Whatever the walk reports as cut really can be completed to a frame. */
  lemma CutIsTorn(file: Bytes, pos: nat)
    requires pos < |file| && ParseHead(file, pos) == Cut
    ensures IsTorn(file[pos..])
  {
    var p, end := file[pos..], Min(pos + WINDOW, |file|);
    if end > pos + FIXED && ReadSize(file, pos + FIXED, end).Size? {
      var Size(v, next) := ReadSize(file, pos + FIXED, end);
      var f := p + seq(next + v - |file|, _ => 0);
      ReadsAlike(file, pos + FIXED, end, f, FIXED, |f|);
      assert IsFrame(f) && p < f;
    } else {
      if |p| > FIXED && ReadSize(p, FIXED, |p|).Size? {
        ReadsAlike(p, FIXED, |p|, file, pos + FIXED, end);
      }
      ShortIsTorn(p);
    }
  }

  /** A frame broken off inside its prefix: an idle group ends the field, zeros fill the payload. */
  lemma ShortIsTorn(p: Bytes)
    requires p != [] && p[0] == MARKER && |p| < WINDOW
    requires |p| > FIXED ==> ReadSize(p, FIXED, |p|) == Short
    ensures IsTorn(p)
  {
    var head := p + seq(if |p| < FIXED then FIXED - |p| else 0, _ => 0) + [SIZE_MASK];
    FieldIsFinished(p, head);
    var f := FilledUp(head);
    assert p < head <= f;
  }

  /** A prefix is filled up to a frame with zeros. */
  lemma FilledUp(head: Bytes) returns (f: Bytes)
    requires FIXED < |head| <= WINDOW && head[0] == MARKER
    requires ReadSize(head, FIXED, |head|).Size? && ReadSize(head, FIXED, |head|).next == |head|
    ensures IsFrame(f) && head <= f
  {
    f := head + seq(ReadSize(head, FIXED, |head|).value, _ => 0);
    ReadsAlike(head, FIXED, |head|, f, FIXED, |f|);
  }

  lemma FieldIsFinished(p: Bytes, head: Bytes)
    requires |p| > FIXED ==> ReadSize(p, FIXED, |p|) == Short
    requires FIXED < |head| && head[|head| - 1] == SIZE_MASK && p <= head
    requires |head| == 1 + if |p| < FIXED then FIXED else |p|
    ensures ReadSize(head, FIXED, |head|).Size? && ReadSize(head, FIXED, |head|).next == |head|
  {
    var end := |head| - 1;
    if ReadSize(head, FIXED, end).Size? {
      ReadsAlike(head, FIXED, end, p, FIXED, |p|);
    }
    IdleGroupFinishes(head, FIXED, end);
  }

  lemma {:induction false} WalkOverFrames(frames: seq<Bytes>, file: Bytes, pos: nat, k: nat)
    requires AllFrames(frames) && pos <= k <= |file| && file[pos..k] == Concat(frames)
    ensures TornFrom(file, pos) == TornFrom(file, k)
    decreases frames
  {
    if frames != [] {
      var next := pos + |frames[0]|;
      SplitAt(file[pos..k], frames[0], Concat(frames[1..]));
      assert file[pos..next] == file[pos..k][..|frames[0]|] && file[next..k] == file[pos..k][|frames[0]|..];
      FrameIsWhole(file, pos, next);
      WalkOverFrames(frames[1..], file, next, k);
    }
  }

  lemma {:induction false} WalkStopsAtTear(file: Bytes, pos: nat) returns (frames: seq<Bytes>)
    requires pos <= |file| && TornFrom(file, pos).Some?
    ensures AllFrames(frames)
    ensures var k := TornFrom(file, pos).value; file[pos..k] == Concat(frames) && IsTorn(file[k..])
    decreases |file| - pos
  {
    match ParseHead(file, pos) {
      case Cut =>
        CutIsTorn(file, pos);
        frames := [];
      case Whole(next) =>
        var more := WalkStopsAtTear(file, next);
        frames := Prepend(file, pos, next, TornFrom(file, pos).value, more);
    }
  }

  lemma Prepend(file: Bytes, pos: nat, next: nat, k: nat, more: seq<Bytes>) returns (frames: seq<Bytes>)
    requires pos < next <= k <= |file| && ParseHead(file, pos) == Whole(next)
    requires AllFrames(more) && file[next..k] == Concat(more)
    ensures AllFrames(frames) && file[pos..k] == Concat(frames)
  {
    WholeIsFrame(file, pos);
    frames := [file[pos..next]] + more;
    assert frames[1..] == more;
    assert file[pos..k] == file[pos..next] + file[next..k];
  }

  /**
   The walk's whole meaning, for arbitrary bytes: it answers `k` exactly when
   the file is the magic, whole frames up to `k`, and from `k` on the beginning
   of one more frame.
   */
  lemma WalkerExactly(file: Bytes, k: nat)
    ensures TruncatedFrame(file) == Some(k) <==>
      |MAGIC| <= k < |file| && MAGIC <= file && Framed(file[|MAGIC|..k]) && IsTorn(file[k..])
  {
    if MAGIC <= file && |MAGIC| <= k < |file| {
      if TornFrom(file, |MAGIC|) == Some(k) {
        var frames := WalkStopsAtTear(file, |MAGIC|);
      }
      if Framed(file[|MAGIC|..k]) && IsTorn(file[k..]) {
        var frames :| AllFrames(frames) && file[|MAGIC|..k] == Concat(frames);
        WalkOverFrames(frames, file, |MAGIC|, k);
        TornIsCut(file, k);
      }
    }
  }

  /** A file that ends on a frame boundary is never cut. */
  lemma BoundaryIsNotCut(file: Bytes, frames: seq<Bytes>)
    requires AllFrames(frames) && file == MAGIC + Concat(frames)
    ensures TruncatedFrame(file) == None
  {
    WalkOverFrames(frames, file, |MAGIC|, |file|);
  }

  // ---------------------------------------------------------------------------------------------
  // The cut
  // ---------------------------------------------------------------------------------------------

  const TAIL_CHECK_MAX_LEN := 64 * 1024 * 1024

  function CutTail(file: Bytes, maxLen: nat): (r: Bytes)
    ensures r <= file
  {
    if |file| > maxLen then file
    else match TruncatedFrame(file)
      case None => file
      case Some(k) => file[..k]
  }

  /** Cutting what has been cut changes nothing: no whole frame is ever lost to a second pass. */
  lemma CutTailTwice(file: Bytes, maxLen: nat)
    ensures CutTail(CutTail(file, maxLen), maxLen) == CutTail(file, maxLen)
  {
    var r := TruncatedFrame(file);
    if |file| <= maxLen && r.Some? {
      var frames := WalkStopsAtTear(file, |MAGIC|);
      assert file[..r.value] == MAGIC + file[|MAGIC|..r.value];
      BoundaryIsNotCut(file[..r.value], frames);
    }
  }

  /** The cut loses no frame: all whole frames that follow the magic are kept, as far as they go. */
  lemma CutLosesNoFrame(file: Bytes, maxLen: nat, frames: seq<Bytes>)
    requires AllFrames(frames) && MAGIC + Concat(frames) <= file
    ensures MAGIC + Concat(frames) <= CutTail(file, maxLen)
  {
    var k := |MAGIC + Concat(frames)|;
    assert file[..k] == MAGIC + Concat(frames);
    assert file[|MAGIC|..k] == file[..k][|MAGIC|..] == Concat(frames);
    assert MAGIC == file[..k][..|MAGIC|] == file[..|MAGIC|];
    WalkOverFrames(frames, file, |MAGIC|, k);
  }
}
