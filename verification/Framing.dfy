/**
 What the bytes of a log file mean in framing terms, independently of any
 parser: whole frames, frames broken off, and runs of whole frames.
 */
module Framing {
  import opened Bytes
  import opened SizeField

  const MARKER: byte := 0xff

  /** Marker, random byte and checksum stand in front of the size field. */
  const FIXED := 3

  const MAX_GROUPS := 5

  /** Marker, random byte, checksum, a size field of at most five groups, and that many bytes. */
  ghost predicate IsFrame(f: Bytes) {
    |f| > FIXED && f[0] == MARKER &&
    match ReadSize(f, FIXED, |f|)
    case Short => false
    case Size(v, next) => next <= FIXED + MAX_GROUPS && |f| == next + v
  }

  /** The beginning of a frame, and not all of it. */
  ghost predicate IsTorn(p: Bytes) {
    p != [] && exists f :: IsFrame(f) && p < f
  }

  function Concat(parts: seq<Bytes>): Bytes {
    if parts == [] then [] else parts[0] + Concat(parts[1..])
  }

  ghost predicate AllFrames(frames: seq<Bytes>) {
    frames == [] || (IsFrame(frames[0]) && AllFrames(frames[1..]))
  }

  /** A run of whole frames, from the first byte to the last. */
  ghost predicate Framed(s: Bytes) {
    exists frames: seq<Bytes> :: AllFrames(frames) && s == Concat(frames)
  }

  lemma SplitAt(s: Bytes, a: Bytes, b: Bytes)
    requires s == a + b
    ensures s[..|a|] == a && s[|a|..] == b
  {
  }

  lemma SlicesOf(s: Bytes, i: nat, j: nat)
    requires i <= j <= |s|
    ensures s[i..][..j - i] == s[i..j] && s[i..][j - i..] == s[j..]
  {
  }

  lemma {:induction false} ConcatAppend(parts: seq<Bytes>, last: Bytes)
    ensures Concat(parts + [last]) == Concat(parts) + last
  {
    if parts == [] {
      assert [last][1..] == [];
    } else {
      assert (parts + [last])[1..] == parts[1..] + [last];
      ConcatAppend(parts[1..], last);
    }
  }

  lemma {:induction false} AllFramesAppend(frames: seq<Bytes>, last: Bytes)
    requires AllFrames(frames) && IsFrame(last)
    ensures AllFrames(frames + [last])
  {
    if frames == [] {
      assert [last][1..] == [];
    } else {
      assert (frames + [last])[1..] == frames[1..] + [last];
      AllFramesAppend(frames[1..], last);
    }
  }
}
