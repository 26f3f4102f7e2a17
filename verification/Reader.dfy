/**
 The reference reader of the file format (the decoder in the tests of
 src/write_to_file.rs), in unbounded arithmetic. Where it asserts or indexes
 out of range, this one answers `None`.
 */
module Reader {
  import opened Bytes
  import opened SizeField
  import opened Framing
  import Keystream
  import opened Zlib

  const CHECKSUM_MASK: byte := 0x5c

  datatype Block = Block(text: Bytes, next: nat)

  /** Takes a block's random byte, checksum byte and payload to its text. */
  type Opener = (byte, byte, Bytes) -> Option<Bytes>

  function OpenPayload(codec: Codec, rnd: byte, checksum: byte, payload: Bytes): Option<Bytes> {
    var z := Keystream.Obfuscate(payload, (rnd * |payload|) % 0x1000);
    if Keystream.Checksum(z) != Xor(checksum, CHECKSUM_MASK) then None else codec.inflate(z)
  }

  /** The reader's own loop over a payload, in its own arithmetic. */
  method Unmask(payload: array<byte>, rnd: byte) returns (sum: nat)
    modifies payload
    ensures Keystream.Masked(payload[..], rnd, old(payload[..]))
    ensures sum == Keystream.ByteSum(payload[..]) % 256
  {
    ghost var onDisk, seed := payload[..], Keystream.XorSeed(rnd, payload.Length);
    var xor: nat := (rnd * payload.Length) % 0x1000;
    sum := 0;
    Keystream.SeedOfFullProduct(rnd, payload.Length);
    for i := 0 to payload.Length
      invariant xor == Keystream.KeyAt(seed, i)
      invariant sum == Keystream.ByteSum(payload[..i]) % 256
      invariant forall j :: i <= j < payload.Length ==> payload[j] == onDisk[j]
      invariant forall j :: 0 <= j < i ==> payload[j] == Xor(onDisk[j], Keystream.KeyAt(seed, j + 1) % 0x100)
    {
      xor := (xor * 2903 + 71) % 0x1000;
      assert xor == Keystream.KeyAt(seed, i + 1);
      ghost var done := payload[..i];
      payload[i] := Xor(payload[i], xor % 0x100);
      OneMoreByte(done, payload[i]);
      assert payload[..i + 1] == done + [payload[i]];
      sum := (sum + payload[i]) % 0x100;
    }
    assert payload[..payload.Length] == payload[..];
    assert payload[..] == Keystream.Obfuscate(onDisk, seed);
    Keystream.ObfuscateTwice(onDisk, seed);
    Keystream.ObfuscatedExactly(payload[..], rnd, onDisk);
  }

  lemma OneMoreByte(done: Bytes, b: byte)
    ensures Keystream.ByteSum(done + [b]) % 0x100 == (Keystream.ByteSum(done) % 0x100 + b) % 0x100
  {
    Keystream.ByteSumAdds(done, [b]);
  }

  /** What a payload opens to: its checksum has to match, and what is decompressed is the payload unmasked. */
  lemma OpensExactly(codec: Codec, rnd: byte, checksum: byte, payload: Bytes, z: Bytes)
    requires Keystream.Masked(z, rnd, payload)
    ensures OpenPayload(codec, rnd, checksum, payload) ==
      if Keystream.ByteSum(z) % 256 == Xor(checksum, 0x5c) then codec.inflate(z) else None
  {
    Keystream.SeedOfFullProduct(rnd, |z|);
    Keystream.ObfuscatedExactly(z, rnd, payload);
    Keystream.ObfuscateTwice(z, Keystream.XorSeed(rnd, |z|));
  }

  function OpenerOf(codec: Codec): Opener {
    (rnd, checksum, payload) => OpenPayload(codec, rnd, checksum, payload)
  }

  /** The block that starts at `pos`. */
  function ReadBlock(open: Opener, raw: Bytes, pos: nat): (r: Option<Block>)
    requires pos < |raw|
    ensures r.Some? ==> pos < r.value.next <= |raw|
  {
    if raw[pos] != MARKER || |raw| < pos + FIXED then None
    else match ReadSize(raw, pos + FIXED, |raw|)
      case Short => None
      case Size(v, next) =>
        if next + v > |raw| then None
        else match open(raw[pos + 1], raw[pos + 2], raw[next..next + v])
          case None => None
          case Some(text) => Some(Block(text, next + v))
  }

  function ReadBlocks(open: Opener, raw: Bytes, pos: nat): Option<seq<Bytes>>
    requires pos <= |raw|
    decreases |raw| - pos
  {
    if pos == |raw| then Some([])
    else match ReadBlock(open, raw, pos)
      case None => None
      case Some(block) => After([block.text], ReadBlocks(open, raw, block.next))
  }

  function After(blocks: seq<Bytes>, more: Option<seq<Bytes>>): Option<seq<Bytes>> {
    if more.None? then None else Some(blocks + more.value)
  }

  lemma AfterNothing(more: Option<seq<Bytes>>)
    ensures After([], more) == more
  {
    assert more.Some? ==> [] + more.value == more.value;
  }

  lemma AfterAfter(blocks: seq<Bytes>, text: Bytes, more: Option<seq<Bytes>>)
    ensures After(blocks, After([text], more)) == After(blocks + [text], more)
  {
    if more.Some? {
      assert blocks + ([text] + more.value) == blocks + [text] + more.value;
    }
  }

  function ReadFile(codec: Codec, raw: Bytes): Option<seq<Bytes>> {
    ReadWith(OpenerOf(codec), raw)
  }

  function ReadWith(open: Opener, raw: Bytes): Option<seq<Bytes>> {
    if MAGIC <= raw then ReadBlocks(open, raw, |MAGIC|) else None
  }

  /** The reader's own loop. */
  method DecodeFile(open: Opener, raw: Bytes) returns (r: Option<seq<Bytes>>)
    ensures r == ReadWith(open, raw)
  {
    if !(MAGIC <= raw) {
      return None;
    }
    var pos, blocks := |MAGIC|, [];
    AfterNothing(ReadBlocks(open, raw, pos));
    while pos < |raw|
      invariant |MAGIC| <= pos <= |raw|
      invariant ReadWith(open, raw) == After(blocks, ReadBlocks(open, raw, pos))
    {
      var block := ReadBlock(open, raw, pos);
      if block.None? {
        return None;
      }
      AfterAfter(blocks, block.value.text, ReadBlocks(open, raw, block.value.next));
      blocks := blocks + [block.value.text];
      pos := block.value.next;
    }
    assert blocks + [] == blocks;
    return Some(blocks);
  }

  /** `f` on its own is one block that carries `text`. */
  ghost predicate Carries(open: Opener, f: Bytes, text: Bytes) {
    f != [] && ReadBlock(open, f, 0) == Some(Block(text, |f|))
  }

  /** A block reads the same wherever it stands and whatever follows it. */
  lemma BlockReadsAnywhere(open: Opener, f: Bytes, text: Bytes, raw: Bytes, pos: nat)
    requires Carries(open, f, text)
    requires pos + |f| <= |raw| && raw[pos..pos + |f|] == f
    ensures ReadBlock(open, raw, pos) == Some(Block(text, pos + |f|))
  {
    var Size(v, next) := ReadSize(f, FIXED, |f|);
    SizeReadsAnywhere(f, raw, pos);
    SubSlice(raw, pos, f, next, next + v);
  }

  lemma SizeReadsAnywhere(f: Bytes, raw: Bytes, pos: nat)
    requires |f| >= FIXED && ReadSize(f, FIXED, |f|).Size?
    requires pos + |f| <= |raw| && raw[pos..pos + |f|] == f
    ensures raw[pos] == f[0] && raw[pos + 1] == f[1] && raw[pos + 2] == f[2]
    ensures var Size(v, next) := ReadSize(f, FIXED, |f|);
      ReadSize(raw, pos + FIXED, |raw|) == Size(v, pos + next)
  {
    assert forall k :: 0 <= k < |f| ==> f[k] == raw[pos..pos + |f|][k] == raw[k + pos];
    ReadsAlike(f, FIXED, |f|, raw, pos + FIXED, |raw|);
  }

  lemma SubSlice(raw: Bytes, pos: nat, f: Bytes, i: nat, j: nat)
    requires i <= j <= |f| && pos + |f| <= |raw| && raw[pos..pos + |f|] == f
    ensures raw[pos + i..pos + j] == f[i..j]
  {
    forall k | 0 <= k < j - i ensures raw[pos + i..pos + j][k] == f[i..j][k] {
      assert f[i + k] == raw[pos..pos + |f|][i + k];
    }
  }

  ghost predicate AllCarry(open: Opener, frames: seq<Bytes>, texts: seq<Bytes>) {
    |frames| == |texts| && forall i :: 0 <= i < |frames| ==> Carries(open, frames[i], texts[i])
  }

  /** A walk over `raw` that reads `text` off `f` wherever it finds it. */
  ghost predicate StepsOver(walk: nat -> Option<seq<Bytes>>, f: Bytes, text: Bytes, raw: Bytes) {
    forall p: nat, next: nat :: next == p + |f| && next <= |raw| && raw[p..next] == f ==>
      walk(p) == After([text], walk(next))
  }

  lemma {:induction false} FramesReadOff(
      walk: nat -> Option<seq<Bytes>>, frames: seq<Bytes>, texts: seq<Bytes>, raw: Bytes, pos: nat)
    requires |frames| == |texts| && walk(|raw|) == Some([])
    requires forall i :: 0 <= i < |frames| ==> StepsOver(walk, frames[i], texts[i], raw)
    requires pos <= |raw| && raw[pos..] == Concat(frames)
    ensures walk(pos) == Some(texts)
    decreases frames
  {
    if frames != [] {
      var next := pos + |frames[0]|;
      SplitAt(raw[pos..], frames[0], Concat(frames[1..]));
      SlicesOf(raw, pos, next);
      FramesReadOff(walk, frames[1..], texts[1..], raw, next);
      assert StepsOver(walk, frames[0], texts[0], raw);
      assert texts == [texts[0]] + texts[1..];
    }
  }

  function WalkOf(open: Opener, raw: Bytes): nat -> Option<seq<Bytes>> {
    (pos: nat) => if pos <= |raw| then ReadBlocks(open, raw, pos) else None
  }

  lemma BlockStep(open: Opener, f: Bytes, text: Bytes, raw: Bytes)
    requires Carries(open, f, text)
    ensures StepsOver(WalkOf(open, raw), f, text, raw)
  {
    forall p: nat, next: nat | next == p + |f| && next <= |raw| && raw[p..next] == f
      ensures WalkOf(open, raw)(p) == After([text], WalkOf(open, raw)(next))
    {
      BlockReadsAnywhere(open, f, text, raw, p);
    }
  }

  /** The magic and whole frames decode, in full, to the frames' texts. */
  lemma FileReadsBack(open: Opener, frames: seq<Bytes>, texts: seq<Bytes>)
    requires AllCarry(open, frames, texts)
    ensures ReadWith(open, MAGIC + Concat(frames)) == Some(texts)
  {
    var raw := MAGIC + Concat(frames);
    var walk := WalkOf(open, raw);
    forall i | 0 <= i < |frames| ensures StepsOver(walk, frames[i], texts[i], raw) {
      BlockStep(open, frames[i], texts[i], raw);
    }
    FramesReadOff(walk, frames, texts, raw, |MAGIC|);
  }

  // ---------------------------------------------------------------------------------------------
  // Nothing else decodes
  // ---------------------------------------------------------------------------------------------

  /** The reader gets `texts` from the blocks `frames`, one behind the other. */
  lemma {:induction false} BlocksReadFrom(open: Opener, raw: Bytes, pos: nat) returns (frames: seq<Bytes>)
    requires pos <= |raw| && ReadBlocks(open, raw, pos).Some?
    ensures AllCarry(open, frames, ReadBlocks(open, raw, pos).value) && raw[pos..] == Concat(frames)
    decreases |raw| - pos
  {
    if pos == |raw| {
      frames := [];
    } else {
      var block := ReadBlock(open, raw, pos).value;
      var more := BlocksReadFrom(open, raw, block.next);
      frames := [raw[pos..block.next]] + more;
      BlockReadsAlone(open, raw, pos);
      CarryOneMore(open, raw[pos..block.next], block.text, more, ReadBlocks(open, raw, block.next).value);
      assert frames[1..] == more && raw[pos..] == raw[pos..block.next] + raw[block.next..];
    }
  }

  lemma CarryOneMore(open: Opener, f: Bytes, text: Bytes, frames: seq<Bytes>, texts: seq<Bytes>)
    requires Carries(open, f, text) && AllCarry(open, frames, texts)
    ensures AllCarry(open, [f] + frames, [text] + texts)
  {
  }

  /** A block read off a file reads the same by itself. */
  lemma BlockReadsAlone(open: Opener, raw: Bytes, pos: nat)
    requires pos < |raw| && ReadBlock(open, raw, pos).Some?
    ensures var Block(text, next) := ReadBlock(open, raw, pos).value; Carries(open, raw[pos..next], text)
  {
    var Block(text, next) := ReadBlock(open, raw, pos).value;
    var f := raw[pos..next];
    var Size(v, start) := ReadSize(raw, pos + FIXED, |raw|);
    assert forall k :: 0 <= k < |f| ==> f[k] == raw[k + pos];
    ReadsAlike(raw, pos + FIXED, |raw|, f, FIXED, |f|);
    assert f[start - pos..start - pos + v] == raw[start..start + v];
  }

  /** A file decodes to `texts` exactly if it is the magic and blocks that carry them, with nothing in between. */
  lemma DecodesExactly(open: Opener, raw: Bytes, texts: seq<Bytes>)
    ensures ReadWith(open, raw) == Some(texts) <==>
      exists frames :: AllCarry(open, frames, texts) && raw == MAGIC + Concat(frames)
  {
    if ReadWith(open, raw) == Some(texts) {
      var frames := BlocksReadFrom(open, raw, |MAGIC|);
      assert raw == MAGIC + raw[|MAGIC|..];
    }
    if frames :| AllCarry(open, frames, texts) && raw == MAGIC + Concat(frames) {
      FileReadsBack(open, frames, texts);
    }
  }

  /** The parts of a block: marker, random byte, checksum, size, and as many bytes that open to `text`. */
  ghost predicate IsBlock(codec: Codec, f: Bytes, text: Bytes) {
    |f| > 3 && f[0] == 0xff && ReadSize(f, 3, |f|).Size? &&
    var Size(v, next) := ReadSize(f, 3, |f|);
    |f| == next + v && OpenPayload(codec, f[1], f[2], f[next..]) == Some(text)
  }

  lemma CarriesExactly(codec: Codec, f: Bytes, text: Bytes)
    ensures Carries(OpenerOf(codec), f, text) <==> IsBlock(codec, f, text)
  {
    if |f| > 3 && ReadSize(f, 3, |f|).Size? {
      var Size(v, next) := ReadSize(f, 3, |f|);
      if next + v == |f| {
        assert f[next..next + v] == f[next..];
      }
    }
  }
}
