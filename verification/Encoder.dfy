/** Building a frame from queued entries (src/write_to_file.rs, `encode_frame`). */
module Encoder {
  import opened Bytes
  import opened SizeField
  import opened Framing
  import opened Keystream
  import opened Zlib
  import opened Reader

  /** Entries are UTF-8 text: what counts is their bytes. */
  type Entry = Bytes

  const NEWLINE: byte := 0x0a
  const BATCH_BYTES := 64000
  const PAYLOAD_BYTES := 2 * 1024 * 1024

  // ---------------------------------------------------------------------------------------------
  // What a frame says
  // ---------------------------------------------------------------------------------------------

  function Lines(entries: seq<Entry>): Bytes {
    if entries == [] then [] else entries[0] + [NEWLINE] + Lines(entries[1..])
  }

  function Line(text: Option<Bytes>): Bytes {
    if text.None? then [] else text.value + [NEWLINE]
  }

  function FrameText(header: Option<Bytes>, notice: Option<Bytes>, entries: seq<Entry>): Bytes {
    Line(header) + Line(notice) + Lines(entries)
  }

  function FramePrefix(rnd: byte, z: Bytes): Bytes {
    [MARKER, rnd, Xor(Checksum(z), CHECKSUM_MASK)] + EncodeSize(|z|)
  }

  function FrameBytes(rnd: byte, z: Bytes): Bytes {
    FramePrefix(rnd, z) + Obfuscate(z, XorSeed(rnd, |z|))
  }

  // ---------------------------------------------------------------------------------------------
  // How many entries a frame takes
  // ---------------------------------------------------------------------------------------------

  /** The chunks written to the encoder, and the index of the first entry left over. */
  datatype Plan = Plan(chunks: seq<Bytes>, consumed: nat)

  function Opening(header: Option<Bytes>, notice: Option<Bytes>): seq<Bytes> {
    (if header.None? then [] else [header.value, [NEWLINE]]) +
    (if notice.None? then [] else [notice.value, [NEWLINE]])
  }

  /** One past the last entry of the batch that already holds `filled` bytes and goes on at `i`. */
  function BatchEnd(logs: seq<Entry>, i: nat, filled: nat): (end: nat)
    requires i <= |logs|
    ensures i <= end <= |logs| && (i < |logs| ==> i < end)
    decreases |logs| - i
  {
    if i == |logs| then i
    else
      var filled' := filled + |logs[i]| + 1;
      if filled' > BATCH_BYTES then i + 1 else BatchEnd(logs, i + 1, filled')
  }

  function Batches(codec: Codec, logs: seq<Entry>, i: nat, chunks: seq<Bytes>): (plan: Plan)
    requires i <= |logs|
    ensures i <= plan.consumed <= |logs| && (i < |logs| ==> i < plan.consumed)
    decreases |logs| - i
  {
    if i == |logs| then Plan(chunks, i)
    else
      var end := BatchEnd(logs, i, 0);
      var chunks' := chunks + [Lines(logs[i..end])];
      if codec.emitted(chunks') > PAYLOAD_BYTES then Plan(chunks', end)
      else Batches(codec, logs, end, chunks')
  }

  function PlanFrame(codec: Codec, logs: seq<Entry>, header: Option<Bytes>, notice: Option<Bytes>): Plan {
    Batches(codec, logs, 0, Opening(header, notice))
  }

  // ---------------------------------------------------------------------------------------------
  // The encoder
  // ---------------------------------------------------------------------------------------------

  /** `rnd` is the random byte the source draws. */
  method EncodeFrame(codec: Codec, logs: seq<Entry>, header: Option<Bytes>, notice: Option<Bytes>, rnd: byte)
    returns (prefix: Bytes, payload: Bytes, consumed: nat)
    ensures consumed == PlanFrame(codec, logs, header, notice).consumed
    ensures prefix + payload == FrameBytes(rnd, codec.deflate(PlanFrame(codec, logs, header, notice).chunks))
    ensures consumed <= |logs| && (logs != [] ==> consumed > 0)
    ensures var z := codec.deflate(PlanFrame(codec, logs, header, notice).chunks);
      Masked(z, rnd, payload) && prefix == [0xff, rnd, Xor(ByteSum(z) % 256, 0x5c)] + EncodeSize(|z|)
    ensures codec.Lossless() ==> Carries(OpenerOf(codec), prefix + payload, FrameText(header, notice, logs[..consumed]))
  {
    var chunks: seq<Bytes> := [];
    if header.Some? {
      chunks := chunks + [header.value];
      chunks := chunks + [[NEWLINE]];
    }
    if notice.Some? {
      chunks := chunks + [notice.value];
      chunks := chunks + [[NEWLINE]];
    }
    assert chunks == Opening(header, notice);

    consumed := 0;
    ghost var plan := PlanFrame(codec, logs, header, notice);
    while true
      invariant consumed <= |logs|
      invariant Batches(codec, logs, consumed, chunks) == plan
      decreases |logs| - consumed
    {
      var bytes := FillBatch(logs, consumed);
      ghost var start := consumed;
      consumed := bytes.1;
      if bytes.0 == [] {
        break;
      }
      chunks := chunks + [bytes.0];
      if codec.emitted(chunks) > PAYLOAD_BYTES {
        break;
      }
    }
    assert plan == Plan(chunks, consumed);

    var z := codec.deflate(chunks);
    var a := new byte[|z|](i requires 0 <= i < |z| => z[i]);
    assert a[..] == z;
    var checksum := ObfuscateInPlace(a, XorSeed(rnd, |z|));
    prefix := PushSize([MARKER, rnd, Xor(checksum, CHECKSUM_MASK)], |z|);
    payload := a[..];
    ObfuscatedExactly(z, rnd, payload);

    PlanTakesFirst(codec, logs, header, notice);
    if codec.Lossless() {
      FrameCarriesText(codec, rnd, chunks);
    }
  }

  /** The inner loop: whole entries until a batch passes 64 000 bytes. */
  method FillBatch(logs: seq<Entry>, start: nat) returns (batch: (Bytes, nat))
    requires start <= |logs|
    ensures batch.1 == BatchEnd(logs, start, 0)
    ensures batch.0 == Lines(logs[start..batch.1])
  {
    var bytes: Bytes, consumed := [], start;
    while consumed < |logs|
      invariant start <= consumed <= |logs|
      invariant bytes == Lines(logs[start..consumed])
      invariant BatchEnd(logs, consumed, |bytes|) == BatchEnd(logs, start, 0)
    {
      LinesAppend(logs[start..consumed], logs[consumed]);
      SliceGrows(logs, start, consumed);
      bytes := bytes + logs[consumed];
      bytes := bytes + [NEWLINE];
      consumed := consumed + 1;
      if |bytes| > BATCH_BYTES {
        break;
      }
    }
    batch := (bytes, consumed);
  }

  // ---------------------------------------------------------------------------------------------
  // What the frame carries
  // ---------------------------------------------------------------------------------------------

  lemma {:induction false} LinesAppend(entries: seq<Entry>, last: Entry)
    ensures Lines(entries + [last]) == Lines(entries) + (last + [NEWLINE])
  {
    if entries == [] {
      assert [last][1..] == [];
    } else {
      assert (entries + [last])[1..] == entries[1..] + [last];
      LinesAppend(entries[1..], last);
    }
  }

  lemma {:induction false} LinesJoin(a: seq<Entry>, b: seq<Entry>)
    ensures Lines(a + b) == Lines(a) + Lines(b)
  {
    if a == [] {
      assert a + b == b;
    } else {
      assert (a + b)[1..] == a[1..] + b;
      LinesJoin(a[1..], b);
    }
  }

  lemma {:induction false} BatchesSayTheLines(codec: Codec, logs: seq<Entry>, i: nat, chunks: seq<Bytes>)
    requires i <= |logs|
    ensures var plan := Batches(codec, logs, i, chunks);
      && Concat(plan.chunks) == Concat(chunks) + Lines(logs[i..plan.consumed])
      && (plan.consumed < |logs| ==> codec.emitted(plan.chunks) > PAYLOAD_BYTES)
    decreases |logs| - i
  {
    if i < |logs| {
      var end := BatchEnd(logs, i, 0);
      var chunks' := chunks + [Lines(logs[i..end])];
      ConcatAppend(chunks, Lines(logs[i..end]));
      if codec.emitted(chunks') <= PAYLOAD_BYTES {
        BatchesSayTheLines(codec, logs, end, chunks');
        var consumed := Batches(codec, logs, end, chunks').consumed;
        LinesJoin(logs[i..end], logs[end..consumed]);
        assert logs[i..consumed] == logs[i..end] + logs[end..consumed];
      }
    }
  }

  /** The loop stops as soon as more than 2 MB have been emitted: no chunk is written after that. */
  lemma {:induction false} BatchesStop(codec: Codec, logs: seq<Entry>, i: nat, chunks: seq<Bytes>)
    requires i <= |logs|
    ensures var plan := Batches(codec, logs, i, chunks);
      chunks <= plan.chunks &&
      forall k :: |chunks| < k < |plan.chunks| ==> codec.emitted(plan.chunks[..k]) <= 2 * 1024 * 1024
    decreases |logs| - i
  {
    if i < |logs| {
      var end := BatchEnd(logs, i, 0);
      var chunks' := chunks + [Lines(logs[i..end])];
      if codec.emitted(chunks') <= PAYLOAD_BYTES {
        BatchesStop(codec, logs, end, chunks');
        assert Batches(codec, logs, end, chunks').chunks[..|chunks'|] == chunks';
      }
    }
  }

  /** A batch ends with the entry that takes it past 64 000 bytes, or with the last one. */
  lemma {:induction false} BatchEndsWhenFull(logs: seq<Entry>, i: nat, filled: nat)
    requires i < |logs| && filled <= 64000
    ensures var end := BatchEnd(logs, i, filled);
      && filled + |Lines(logs[i..end - 1])| <= 64000
      && (end < |logs| ==> filled + |Lines(logs[i..end])| > 64000)
    decreases |logs| - i
  {
    var filled' := filled + |logs[i]| + 1;
    var end := BatchEnd(logs, i, filled);
    LinesFrom(logs, i, i + 1);
    if filled' <= 64000 && i + 1 < |logs| {
      BatchEndsWhenFull(logs, i + 1, filled');
      LinesFrom(logs, i, end - 1);
      LinesFrom(logs, i, end);
    }
  }

  lemma LinesFrom(logs: seq<Entry>, i: nat, j: nat)
    requires i < j <= |logs|
    ensures |Lines(logs[i..j])| == |logs[i]| + 1 + |Lines(logs[i + 1..j])|
  {
    assert logs[i..j][1..] == logs[i + 1..j];
  }

  /**
   The encoder was given the header, the notice and exactly the first `consumed`
   entries; some are left over only when more than 2 MB were emitted, and nothing
   is written once they were.
   */
  lemma PlanTakesFirst(codec: Codec, logs: seq<Entry>, header: Option<Bytes>, notice: Option<Bytes>)
    ensures var plan := PlanFrame(codec, logs, header, notice);
      && Concat(plan.chunks) == FrameText(header, notice, logs[..plan.consumed])
      && (plan.consumed < |logs| ==> codec.emitted(plan.chunks) > 2 * 1024 * 1024)
      && forall k :: |Opening(header, notice)| < k < |plan.chunks| ==>
          codec.emitted(plan.chunks[..k]) <= 2 * 1024 * 1024
  {
    BatchesSayTheLines(codec, logs, 0, Opening(header, notice));
    BatchesStop(codec, logs, 0, Opening(header, notice));
    OpeningSaysTheLines(header, notice);
  }

  lemma OpeningSaysTheLines(header: Option<Bytes>, notice: Option<Bytes>)
    ensures Concat(Opening(header, notice)) == Line(header) + Line(notice)
  {
    var h := if header.None? then [] else [header.value, [NEWLINE]];
    if header.Some? {
      TwoChunks([], header.value);
    }
    assert Concat(h) == Line(header);
    if notice.Some? {
      TwoChunks(h, notice.value);
      assert Opening(header, notice) == h + [notice.value] + [[NEWLINE]];
    } else {
      assert Opening(header, notice) == h;
    }
  }

  lemma TwoChunks(chunks: seq<Bytes>, text: Bytes)
    ensures Concat(chunks + [text] + [[NEWLINE]]) == Concat(chunks) + Line(Some(text))
    ensures [] + [text] + [[NEWLINE]] == [text, [NEWLINE]]
  {
    ConcatAppend(chunks, text);
    ConcatAppend(chunks + [text], [NEWLINE]);
  }

  lemma FrameParts(rnd: byte, z: Bytes)
    ensures var f, next := FrameBytes(rnd, z), |FramePrefix(rnd, z)|;
      && |f| == next + |z| && f[0] == MARKER && f[1] == rnd && f[2] == Xor(Checksum(z), CHECKSUM_MASK)
      && ReadSize(f, FIXED, |f|) == Size(|z|, next)
      && f[next..] == Obfuscate(z, XorSeed(rnd, |z|))
      && next == FIXED + |EncodeSize(|z|)|
  {
    var f := FrameBytes(rnd, z);
    var e := EncodeSize(|z|);
    assert f[FIXED..FIXED + |e|] == e;
    ReadAfterEncode(|z|, f, FIXED, |f|);
  }

  /** The reader's seed and keystream give back the payload and its checksum. */
  lemma PayloadOpens(codec: Codec, rnd: byte, z: Bytes)
    ensures OpenPayload(codec, rnd, Xor(Checksum(z), CHECKSUM_MASK), Obfuscate(z, XorSeed(rnd, |z|))) ==
      codec.inflate(z)
  {
    SeedOfFullProduct(rnd, |z|);
    ObfuscateTwice(z, XorSeed(rnd, |z|));
    XorTwice(Checksum(z), CHECKSUM_MASK);
  }

  /** Checksum, keystream and compression are all undone by the reader. */
  lemma FrameCarriesText(codec: Codec, rnd: byte, chunks: seq<Bytes>)
    requires codec.Lossless()
    ensures Carries(OpenerOf(codec), FrameBytes(rnd, codec.deflate(chunks)), Concat(chunks))
  {
    var z := codec.deflate(chunks);
    FrameParts(rnd, z);
    PayloadOpens(codec, rnd, z);
    FrameReads(OpenerOf(codec), FrameBytes(rnd, z), |FramePrefix(rnd, z)|);
  }

  lemma FrameReads(open: Opener, f: Bytes, next: nat)
    requires |f| > FIXED && f[0] == MARKER && next <= |f| && ReadSize(f, FIXED, |f|) == Size(|f| - next, next)
    ensures var text := open(f[1], f[2], f[next..]);
      ReadBlock(open, f, 0) == if text.None? then None else Some(Block(text.value, |f|))
  {
    assert f[next..next + (|f| - next)] == f[next..];
  }

  /** The walker takes the encoder's frame for a frame exactly below 2^35 bytes of payload. */
  lemma FrameBytesIsFrameExactly(rnd: byte, z: Bytes)
    ensures IsFrame(FrameBytes(rnd, z)) <==> |z| < SIZE_LIMIT
  {
    FrameParts(rnd, z);
    FiveGroupsExactly(|z|);
  }
}
