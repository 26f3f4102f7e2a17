/**
 Delivery as a reader of the file sees it: where drained entries stand in what
 it decodes (src/write_to_file.rs, the decoder in the tests).
 */
module Decoded {
  import opened Bytes
  import Format
  import Messages
  import Framing
  import Reader
  import opened Encoder
  import opened LogFiles
  import opened History
  import Conservation
  import Recovery

  // ---------------------------------------------------------------------------------------------
  // One entry
  // ---------------------------------------------------------------------------------------------

  ghost predicate EndsLine(text: Bytes) {
    text == [] || text[|text| - 1] == NEWLINE
  }

  /** `entry` is on a line of its own in `block`. */
  ghost predicate HasLine(block: Bytes, entry: Entry) {
    exists before: Bytes, after: Bytes :: EndsLine(before) && block == before + (entry + [NEWLINE]) + after
  }

  /** The file decodes, and one of its blocks has `entry` on a line of its own. */
  ghost predicate ReadsBack(env: Env, disk: Option<Bytes>, entry: Entry) {
    && disk.Some? && Reader.ReadFile(env.codec, disk.value).Some?
    && exists k :: 0 <= k < |Reader.ReadFile(env.codec, disk.value).value| &&
        HasLine(Reader.ReadFile(env.codec, disk.value).value[k], entry)
  }

  lemma {:induction false} LinesEndLine(entries: seq<Entry>)
    ensures EndsLine(Lines(entries))
  {
    if entries != [] {
      LinesEndLine(entries[1..]);
    }
  }

  lemma LinesAround(entries: seq<Entry>, i: nat)
    requires i < |entries|
    ensures Lines(entries) == Lines(entries[..i]) + (entries[i] + [NEWLINE]) + Lines(entries[i + 1..])
  {
    assert entries == entries[..i] + entries[i..];
    LinesJoin(entries[..i], entries[i..]);
    assert entries[i..][1..] == entries[i + 1..];
  }

  lemma TextHasLine(head: Option<Bytes>, notice: Option<Bytes>, entries: seq<Entry>, i: nat)
    requires i < |entries|
    ensures HasLine(FrameText(head, notice, entries), entries[i])
  {
    var opening, before, line := Line(head) + Line(notice), Lines(entries[..i]), entries[i] + [NEWLINE];
    LinesAround(entries, i);
    LinesEndLine(entries[..i]);
    LineStands(opening, before, entries[i], Lines(entries[i + 1..]));
  }

  lemma LineStands(opening: Bytes, before: Bytes, entry: Entry, after: Bytes)
    requires EndsLine(opening) && EndsLine(before)
    ensures HasLine(opening + (before + (entry + [NEWLINE]) + after), entry)
  {
    var line := entry + [NEWLINE];
    assert opening + (before + line + after) == (opening + before) + line + after;
    assert EndsLine(opening + before);
  }

  lemma RecordHasLine(env: Env, records: seq<Record>, accepted: seq<Entry>, k: nat, i: nat)
    requires AllInRange(records, accepted) && k < |records| && Conservation.Holds(records[k], i)
    ensures i < |accepted| && HasLine(Texts(env, records, accepted)[k], accepted[i])
  {
    var r := records[k];
    assert InRange(r, accepted);
    TextHasLine(r.head, NoticeFor(env, r.layout, r.noticed, r.at), accepted[r.lo..r.hi], i - r.lo);
  }

  /** What was drained into the file that is on disk now can be read back from it. */
  lemma DrainedReadsBack(env: Env, w: World, i: nat)
    requires Recovery.Inv(env, w) && w.torn == [] && w.floor <= i < |w.fates| && w.fates[i].Drained?
    ensures ReadsBack(env, w.disk, w.accepted[i])
  {
    assert Conservation.Placed(w.records, i);
    var k :| 0 <= k < |w.records| && Conservation.Holds(w.records[k], i);
    Recovery.FileDecodes(env, w);
    RecordHasLine(env, w.records, w.accepted, k, i);
    BlockReadsBack(env, w.disk.value, Texts(env, w.records, w.accepted), k, w.accepted[i]);
  }

  lemma BlockReadsBack(env: Env, raw: Bytes, blocks: seq<Bytes>, k: nat, entry: Entry)
    requires Reader.ReadFile(env.codec, raw) == Some(blocks) && k < |blocks| && HasLine(blocks[k], entry)
    ensures ReadsBack(env, Some(raw), entry)
  {
  }

  // ---------------------------------------------------------------------------------------------
  // All entries, in order
  // ---------------------------------------------------------------------------------------------

  /** The entries stand in `text` one behind the other, each on a line of its own. */
  ghost predicate InLines(entries: seq<Entry>, text: Bytes)
    decreases |entries|
  {
    entries == [] ||
    exists before: Bytes, after: Bytes ::
      EndsLine(before) && text == before + (entries[0] + [NEWLINE]) + after && InLines(entries[1..], after)
  }

  lemma FirstLine(entries: seq<Entry>, before: Bytes, after: Bytes)
    requires entries != [] && EndsLine(before) && InLines(entries[1..], after)
    ensures InLines(entries, before + (entries[0] + [NEWLINE]) + after)
  {
  }

  lemma {:induction false} LinesStand(entries: seq<Entry>)
    ensures InLines(entries, Lines(entries))
    decreases |entries|
  {
    if entries != [] {
      LinesStand(entries[1..]);
      FirstLine(entries, [], Lines(entries[1..]));
      assert [] + (entries[0] + [NEWLINE]) + Lines(entries[1..]) == Lines(entries);
    }
  }

  /** Text in front, up to a line's end, does not matter. */
  lemma LinesBehind(entries: seq<Entry>, opening: Bytes, text: Bytes)
    requires EndsLine(opening) && InLines(entries, text)
    ensures InLines(entries, opening + text)
  {
    if entries != [] {
      var before: Bytes, after: Bytes :|
        EndsLine(before) && text == before + (entries[0] + [NEWLINE]) + after && InLines(entries[1..], after);
      var line := entries[0] + [NEWLINE];
      assert opening + (before + line + after) == (opening + before) + line + after;
      FirstLine(entries, opening + before, after);
    }
  }

  lemma {:induction false} LinesJoined(a: seq<Entry>, x: Bytes, b: seq<Entry>, y: Bytes)
    requires InLines(a, x) && EndsLine(x) && InLines(b, y)
    ensures InLines(a + b, x + y)
    decreases |a|
  {
    if a == [] {
      assert a + b == b;
      LinesBehind(b, x, y);
    } else {
      var before: Bytes, after: Bytes :|
        EndsLine(before) && x == before + (a[0] + [NEWLINE]) + after && InLines(a[1..], after);
      TailEndsLine(before, a[0], after);
      LinesJoined(a[1..], after, b, y);
      FirstLineJoined(a, before, after, b, y);
    }
  }

  lemma FirstLineJoined(a: seq<Entry>, before: Bytes, after: Bytes, b: seq<Entry>, y: Bytes)
    requires a != [] && EndsLine(before) && InLines(a[1..] + b, after + y)
    ensures InLines(a + b, before + (a[0] + [NEWLINE]) + after + y)
  {
    assert (a + b)[0] == a[0] && (a + b)[1..] == a[1..] + b;
    FirstLine(a + b, before, after + y);
    Regrouped(before, a[0] + [NEWLINE], after, y);
  }

  lemma Regrouped(before: Bytes, line: Bytes, after: Bytes, y: Bytes)
    ensures before + line + (after + y) == before + line + after + y
  {
  }

  lemma TailEndsLine(before: Bytes, entry: Entry, after: Bytes)
    requires EndsLine(before + (entry + [NEWLINE]) + after)
    ensures EndsLine(after)
  {
    if after != [] {
      var x := before + (entry + [NEWLINE]) + after;
      assert x[|x| - 1] == after[|after| - 1];
    }
  }

  lemma TextEndsLine(head: Option<Bytes>, notice: Option<Bytes>, entries: seq<Entry>)
    ensures EndsLine(Line(head) + Line(notice)) && EndsLine(FrameText(head, notice, entries))
  {
    LinesEndLine(entries);
  }

  lemma FrameLines(head: Option<Bytes>, notice: Option<Bytes>, entries: seq<Entry>)
    ensures InLines(entries, FrameText(head, notice, entries)) && EndsLine(FrameText(head, notice, entries))
  {
    TextEndsLine(head, notice, entries);
    LinesStand(entries);
    LinesBehind(entries, Line(head) + Line(notice), Lines(entries));
  }

  lemma TextsGrow(env: Env, records: seq<Record>, r: Record, accepted: seq<Entry>)
    requires AllInRange(records, accepted) && InRange(r, accepted)
    ensures AllInRange(records + [r], accepted)
    ensures Texts(env, records + [r], accepted) == Texts(env, records, accepted) + [TextOf(env, r, accepted)]
  {
  }

  lemma LastText(env: Env, records: seq<Record>, accepted: seq<Entry>)
    requires AllInRange(records, accepted) && records != []
    ensures var n := |records| - 1;
      AllInRange(records[..n], accepted) && InRange(records[n], accepted) &&
      Framing.Concat(Texts(env, records, accepted)) ==
        Framing.Concat(Texts(env, records[..n], accepted)) + TextOf(env, records[n], accepted)
  {
    var n := |records| - 1;
    assert InRange(records[n], accepted) && records == records[..n] + [records[n]];
    TextsGrow(env, records[..n], records[n], accepted);
    Framing.ConcatAppend(Texts(env, records[..n], accepted), TextOf(env, records[n], accepted));
  }

  lemma RecordLines(env: Env, r: Record, accepted: seq<Entry>)
    requires InRange(r, accepted)
    ensures InLines(accepted[r.lo..r.hi], TextOf(env, r, accepted)) && EndsLine(TextOf(env, r, accepted))
  {
    FrameLines(r.head, NoticeFor(env, r.layout, r.noticed, r.at), accepted[r.lo..r.hi]);
  }

  /** The confirmed entries stand in order in the texts of all frames, whatever unconfirmed frames stand between. */
  lemma {:induction false} DeliveredInLines(env: Env, records: seq<Record>, accepted: seq<Entry>)
    requires AllInRange(records, accepted)
    ensures InLines(Delivered(records, accepted), Framing.Concat(Texts(env, records, accepted)))
    ensures EndsLine(Framing.Concat(Texts(env, records, accepted)))
    decreases |records|
  {
    if records != [] {
      var n := |records| - 1;
      LastText(env, records, accepted);
      DeliveredInLines(env, records[..n], accepted);
      RecordLines(env, records[n], accepted);
      OneMoreFrame(Delivered(records[..n], accepted), Framing.Concat(Texts(env, records[..n], accepted)),
                   accepted[records[n].lo..records[n].hi], TextOf(env, records[n], accepted));
    }
  }

  lemma OneMoreFrame(delivered: seq<Entry>, text: Bytes, entries: seq<Entry>, frame: Bytes)
    requires InLines(delivered, text) && EndsLine(text) && InLines(entries, frame) && EndsLine(frame)
    ensures InLines(delivered + entries, text + frame) && InLines(delivered + [], text + frame)
    ensures EndsLine(text + frame)
  {
    LinesJoined(delivered, text, entries, frame);
    LinesJoined(delivered, text, [], frame);
    JoinedEndsLine(text, frame);
  }

  lemma JoinedEndsLine(text: Bytes, frame: Bytes)
    requires EndsLine(text) && EndsLine(frame)
    ensures EndsLine(text + frame)
  {
    assert frame == [] ==> text + frame == text;
  }

  /**
   At-least-once delivery in order: in the decoded file the entries drained
   since it began stand in the order they were accepted, each on a line of its own.
   */
  lemma DrainedInOrder(env: Env, w: World)
    requires Recovery.Inv(env, w) && HasContent(w.disk) && w.torn == []
    ensures Reader.ReadFile(env.codec, w.disk.value).Some?
    ensures InLines(
      DrainedSince(w.accepted, w.fates, w.floor), Framing.Concat(Reader.ReadFile(env.codec, w.disk.value).value))
  {
    Recovery.FileDecodes(env, w);
    DeliveredInLines(env, w.records, w.accepted);
  }

  // ---------------------------------------------------------------------------------------------
  // What every block says, and what it tells of dropped entries
  // ---------------------------------------------------------------------------------------------

  /** The line that reports `count` dropped entries, as it stands in a file. */
  ghost function BacklogLine(env: Env, layout: Messages.Layout, now: nat, count: nat): Bytes {
    (if layout.logType.NoSplit? || layout.noDate then [] else env.stamp(layout.logType, now) + [0x20]) +
    (Format.Ascii("[op-log] dropped ") + Format.Decimal(count) + Format.Ascii(" log entries (write backlog)")) + [0x0a]
  }

  /** What stands in a block ahead of its entries: the header's line if it has one, and the report of any drops. */
  ghost function BlockOpening(
      env: Env, head: Option<Bytes>, layout: Messages.Layout, now: nat, dropped: nat): Bytes
  {
    (if head.Some? then head.value + [0x0a] else []) +
    (if dropped > 0 then BacklogLine(env, layout, now, dropped) else [])
  }

  lemma OpeningSays(env: Env, head: Option<Bytes>, layout: Messages.Layout, now: nat, dropped: nat)
    ensures Line(head) + Line(NoticeFor(env, layout, dropped, now)) == BlockOpening(env, head, layout, now, dropped)
  {
    Format.BacklogEntry(env.stamp, layout, now, dropped);
    if dropped > 0 {
      var text :=
        Format.Ascii("[op-log] dropped ") + Format.Decimal(dropped) + Format.Ascii(" log entries (write backlog)");
      assert [] + text == text;
      assert Line(NoticeFor(env, layout, dropped, now)) == BacklogLine(env, layout, now, dropped);
    }
  }

  ghost function OpeningOfRecord(env: Env, r: Record): Bytes {
    BlockOpening(env, r.head, r.layout, r.at, r.noticed)
  }

  /** The block is its opening and the lines of its entries, and nothing else. */
  ghost predicate Says(env: Env, block: Bytes, r: Record, accepted: seq<Entry>) {
    InRange(r, accepted) && block == OpeningOfRecord(env, r) + Lines(accepted[r.lo..r.hi])
  }

  lemma TextSays(env: Env, r: Record, accepted: seq<Entry>)
    requires InRange(r, accepted)
    ensures TextOf(env, r, accepted) == OpeningOfRecord(env, r) + Lines(accepted[r.lo..r.hi])
  {
    OpeningSays(env, r.head, r.layout, r.at, r.noticed);
  }

  /**
   Every block of the decoded file, to the byte: its header's line if it has one,
   exactly one line that reports the drops if there were any and none otherwise,
   and the lines of its entries.
   */
  lemma BlocksSay(env: Env, w: World) returns (blocks: seq<Bytes>)
    requires Recovery.Inv(env, w) && HasContent(w.disk) && w.torn == []
    ensures Reader.ReadFile(env.codec, w.disk.value) == Some(blocks) && |blocks| == |w.records|
    ensures forall i :: 0 <= i < |blocks| ==> Says(env, blocks[i], w.records[i], w.accepted)
  {
    Recovery.FileDecodes(env, w);
    blocks := Texts(env, w.records, w.accepted);
    forall i | 0 <= i < |blocks| ensures Says(env, blocks[i], w.records[i], w.accepted) {
      assert InRange(w.records[i], w.accepted);
      TextSays(env, w.records[i], w.accepted);
    }
  }

  /** The drops that confirmed blocks tell a reader of: those whose report does stand at the head of the block. */
  ghost function Told(env: Env, blocks: seq<Bytes>, records: seq<Record>): nat
    requires |blocks| == |records|
  {
    if records == [] then 0
    else
      var n := |records| - 1;
      var r := records[n];
      var line := (if r.head.Some? then r.head.value + [0x0a] else []) + BacklogLine(env, r.layout, r.at, r.noticed);
      Told(env, blocks[..n], records[..n]) + if r.confirmed && line <= blocks[n] then r.noticed else 0
  }

  lemma {:induction false} ToldIsReported(env: Env, blocks: seq<Bytes>, records: seq<Record>)
    requires |blocks| == |records|
    requires forall i :: 0 <= i < |records| ==> OpeningOfRecord(env, records[i]) <= blocks[i]
    ensures Told(env, blocks, records) == Reported(records)
  {
    if records != [] {
      var n := |records| - 1;
      ToldIsReported(env, blocks[..n], records[..n]);
      assert OpeningOfRecord(env, records[n]) <= blocks[n];
    }
  }

  /**
   The account of dropped entries, on the decoded text: the counts whose reports
   stand in confirmed blocks, those reported in files since deleted, those
   forgotten by restarts and the one still held add up to the entries dropped.
   */
  lemma DropsAreTold(env: Env, w: World)
    requires Recovery.Inv(env, w) && HasContent(w.disk) && w.torn == []
    ensures Reader.ReadFile(env.codec, w.disk.value).Some?
    ensures var blocks := Reader.ReadFile(env.codec, w.disk.value).value;
      |blocks| == |w.records| &&
      w.reportedEarlier + Told(env, blocks, w.records) + w.unreported
      + (if w.file.Some? then w.file.value.dropped else 0) == CountDropped(w.fates)
  {
    var blocks := BlocksSay(env, w);
    forall i | 0 <= i < |blocks| ensures OpeningOfRecord(env, w.records[i]) <= blocks[i] {
      assert Says(env, blocks[i], w.records[i], w.accepted);
    }
    ToldIsReported(env, blocks, w.records);
  }

  /**
   What one successful write adds to the decoded file, from the attempt and the
   queue alone: the header if the file was empty, the report of the drops, at the
   time of the attempt, and at least one entry from the front of the queue.
   */
  lemma SuccessSays(env: Env, w: World, a: Attempt)
    requires env.codec.Lossless() && Recovery.Inv(env, w) && Recovery.Benign(env, w, Write(a))
    requires w.file.Some? && Due(w.file.value, a) && a.fault.NoFault?
    ensures var w', f := Step(env, w, Write(a)), w.file.value;
      var head := if !HasContent(w.disk) && f.header != [] then Some(f.header) else None;
      && w'.disk.Some? && Reader.ReadFile(env.codec, w'.disk.value).Some? && w'.file.Some?
      && var blocks, left := Reader.ReadFile(env.codec, w'.disk.value).value, w'.file.value.logs;
      && |blocks| == |w.records| + 1 && |left| < |f.logs| && left == f.logs[|f.logs| - |left|..]
      && w'.file.value.dropped == 0
      && blocks[|w.records|] ==
          BlockOpening(env, head, a.layout, a.now, f.dropped) + Lines(f.logs[..|f.logs| - |left|])
  {
    var f := w.file.value;
    var c := CargoOf(env, w.disk, f, a);
    Recovery.SuccessDecodes(env, w, a);
    Recovery.CargoIsFrameExactly(env, w.disk, f, a);
    Conservation.RecordCarriesQueue(w, f, a, c);
    LastBlockSays(env, Step(env, w, Write(a)), RecordOf(w, f, a, c));
  }

  lemma LastBlockSays(env: Env, w: World, r: Record)
    requires Recovery.Inv(env, w) && HasContent(w.disk) && w.torn == []
    requires w.records != [] && w.records[|w.records| - 1] == r
    ensures Reader.ReadFile(env.codec, w.disk.value).Some? && InRange(r, w.accepted)
    ensures var blocks := Reader.ReadFile(env.codec, w.disk.value).value;
      |blocks| == |w.records| && blocks[|blocks| - 1] == OpeningOfRecord(env, r) + Lines(w.accepted[r.lo..r.hi])
  {
    var blocks := BlocksSay(env, w);
    assert Says(env, blocks[|blocks| - 1], r, w.accepted);
  }
}
