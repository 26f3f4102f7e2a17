/**
 The size field of a frame: seven bits a byte, low group first, 0x80 marks a
 byte that is followed by another, every byte XOR 0xC5.
 */
module SizeField {
  import opened Bytes

  const SIZE_MASK: byte := 0xc5

  /** Sizes from here on need more than five groups. */
  const SIZE_LIMIT := 0x8_0000_0000

  /** `next` is the index of the first byte behind the field. */
  datatype SizeParse = Short | Size(value: nat, next: nat)

  function EncodeSize(n: nat): (s: Bytes)
    ensures s != []
  {
    if n < 0x80 then [Xor(n, SIZE_MASK)]
    else [Xor(n % 0x80 + 0x80, SIZE_MASK)] + EncodeSize(n / 0x80)
  }

  /** `b & 0x7f`. */
  function LowBits(b: byte): byte {
    if b < 0x80 then b else b - 0x80
  }

  /** Reads the size field that starts at `i`; `Short` when `end` comes before its last byte. */
  function ReadSize(s: Bytes, i: nat, end: nat): (r: SizeParse)
    requires i <= end <= |s|
    ensures r.Size? ==> i < r.next <= end
    decreases end - i
  {
    if i == end then Short
    else
      var b := Xor(s[i], SIZE_MASK);
      if b < 0x80 then Size(b, i + 1)
      else match ReadSize(s, i + 1, end)
        case Short => Short
        case Size(v, next) => Size(b - 0x80 + 0x80 * v, next)
  }

  /** The encoder's loop: the groups of `size` pushed onto `prefix`. */
  method PushSize(prefix: Bytes, size: nat) returns (r: Bytes)
    ensures r == prefix + EncodeSize(size)
  {
    r := prefix;
    var rest := size;
    while true
      invariant r + EncodeSize(rest) == prefix + EncodeSize(size)
      decreases rest
    {
      var b: byte := rest % 0x80;
      ghost var before := rest;
      rest := rest / 0x80;
      if rest != 0 {
        b := b + 0x80;
      }
      ghost var sofar := r;
      r := r + [Xor(b, SIZE_MASK)];
      if rest == 0 {
        break;
      }
      assert r + EncodeSize(rest) == sofar + EncodeSize(before);
    }
  }

  /** `n` without its lowest `k` groups of seven bits. */
  function Without(n: nat, k: nat): nat {
    if k == 0 then n else Without(n / 128, k - 1)
  }

  lemma FirstGroup(n: nat) returns (b: byte)
    ensures b == if n >= 0x80 then n % 0x80 + 0x80 else n
    ensures EncodeSize(n)[0] == Xor(b, 0xc5)
  {
    b := if n >= 0x80 then n % 0x80 + 0x80 else n;
  }

  lemma LaterGroups(n: nat)
    ensures |EncodeSize(n)| > 1 <==> n >= 0x80
    ensures n >= 0x80 ==> EncodeSize(n)[1..] == EncodeSize(n / 0x80)
  {
  }

  /** Byte `k` of a size on disk: seven bits of it, low group first, and a mark if another byte follows. */
  lemma {:induction false} GroupsOnDisk(n: nat, k: nat) returns (b: byte)
    requires k < |EncodeSize(n)|
    ensures b == Without(n, k) % 128 + if k + 1 < |EncodeSize(n)| then 128 else 0
    ensures EncodeSize(n)[k] == Xor(b, 0xc5) && (k + 1 < |EncodeSize(n)| <==> Without(n, k) >= 128)
    decreases k
  {
    LaterGroups(n);
    if k == 0 {
      b := FirstGroup(n);
    } else {
      b := GroupsOnDisk(n / 0x80, k - 1);
      assert EncodeSize(n)[k] == EncodeSize(n)[1..][k - 1];
    }
  }

  /** What a read returns is decided by the bytes of the field alone. */
  lemma {:induction false} ReadsAlike(s: Bytes, i: nat, end: nat, t: Bytes, j: nat, stop: nat)
    requires i <= end <= |s| && j <= stop <= |t|
    requires ReadSize(s, i, end).Size?
    requires var next := ReadSize(s, i, end).next;
      next - i <= stop - j && forall k :: i <= k < next ==> s[k] == t[k - i + j]
    ensures var Size(v, next) := ReadSize(s, i, end);
      ReadSize(t, j, stop) == Size(v, j + (next - i))
    decreases end - i
  {
    if Xor(s[i], SIZE_MASK) >= 0x80 {
      ReadsAlike(s, i + 1, end, t, j + 1, stop);
    }
  }

  lemma {:induction false} ReadAfterEncode(n: nat, s: Bytes, i: nat, end: nat)
    requires i + |EncodeSize(n)| <= end <= |s| && s[i..i + |EncodeSize(n)|] == EncodeSize(n)
    ensures ReadSize(s, i, end) == Size(n, i + |EncodeSize(n)|)
  {
    var e := EncodeSize(n);
    assert s[i] == e[0] by { assert s[i..i + |e|][0] == e[0]; }
    if n < 0x80 {
      XorTwice(n, SIZE_MASK);
    } else {
      XorTwice(n % 0x80 + 0x80, SIZE_MASK);
      assert s[i + 1..i + |e|] == s[i..i + |e|][1..] == EncodeSize(n / 0x80);
      ReadAfterEncode(n / 0x80, s, i + 1, end);
    }
  }

  /** A field cut anywhere reads as `Short`. */
  lemma CutFieldIsShort(n: nat, s: Bytes, i: nat)
    requires i <= |s| < i + |EncodeSize(n)| && s[i..] == EncodeSize(n)[..|s| - i]
    ensures ReadSize(s, i, |s|) == Short
  {
    var r, e := ReadSize(s, i, |s|), EncodeSize(n);
    if r.Size? {
      StartsLike(s, i, e);
      ReadsAlike(s, i, |s|, e, 0, |e|);
      ReadAfterEncode(n, e, 0, |e|);
    }
  }

  lemma StartsLike(s: Bytes, i: nat, e: Bytes)
    requires i <= |s| && |s| - i <= |e| && s[i..] == e[..|s| - i]
    ensures forall k :: i <= k < |s| ==> s[k] == e[k - i + 0]
  {
    forall k | i <= k < |s| ensures s[k] == e[k - i + 0] {
      assert s[i..][k - i] == e[..|s| - i][k - i];
    }
  }

  /** No encoding is a prefix of the encoding of another size. */
  lemma EncodingsArePrefixFree(m: nat, n: nat)
    requires EncodeSize(m) <= EncodeSize(n)
    ensures m == n
  {
    ReadAfterEncode(m, EncodeSize(n), 0, |EncodeSize(n)|);
    ReadAfterEncode(n, EncodeSize(n), 0, |EncodeSize(n)|);
  }

  /** The bytes are the encoder's own for `n` exactly when they do not end in an idle group. */
  ghost predicate Canonical(s: Bytes, i: nat, next: nat, n: nat) {
    i < next <= |s| && (s[i..next] == EncodeSize(n) <==> next == i + 1 || Xor(s[next - 1], SIZE_MASK) != 0)
  }

  lemma {:induction false} CanonicalExactly(s: Bytes, i: nat)
    requires i <= |s| && ReadSize(s, i, |s|).Size?
    ensures var Size(n, next) := ReadSize(s, i, |s|); Canonical(s, i, next, n)
    decreases |s| - i
  {
    var b := MaskedByte(s, i);
    if b < 0x80 {
      OneGroupIsCanonical(s, i, b);
    } else {
      CanonicalExactly(s, i + 1);
      OneMoreGroup(s, i, b);
    }
  }

  lemma OneMoreGroup(s: Bytes, i: nat, b: byte)
    requires i < |s| && s[i] == Xor(b, SIZE_MASK) && b >= 0x80 && ReadSize(s, i + 1, |s|).Size?
    requires var Size(v, next) := ReadSize(s, i + 1, |s|); Canonical(s, i + 1, next, v)
    ensures var Size(v, next) := ReadSize(s, i + 1, |s|); Canonical(s, i, next, b - 0x80 + 0x80 * v)
  {
    var Size(v, next) := ReadSize(s, i + 1, |s|);
    if v == 0 {
      ZeroIsIdle(s, i + 1);
      OneGroupIsShorter(s, i, next, b);
    } else {
      if next == i + 2 {
        OneGroupHolds(s, i + 1);
      }
      GroupsAhead(s, i, next, b, v);
    }
  }

  lemma GroupsAhead(s: Bytes, i: nat, next: nat, b: byte, v: nat)
    requires i + 1 < next && v > 0 && b >= 0x80 && Canonical(s, i + 1, next, v) && s[i] == Xor(b, SIZE_MASK)
    requires next == i + 2 ==> Xor(s[i + 1], SIZE_MASK) == v
    ensures Canonical(s, i, next, b - 0x80 + 0x80 * v)
  {
    CanonicalStep(s, i, next, b, v);
  }

  lemma OneGroupHolds(s: Bytes, i: nat)
    requires i < |s| && ReadSize(s, i, |s|).Size? && ReadSize(s, i, |s|).next == i + 1
    ensures Xor(s[i], SIZE_MASK) == ReadSize(s, i, |s|).value
  {
  }

  lemma OneGroupIsCanonical(s: Bytes, i: nat, b: byte)
    requires i < |s| && b < 0x80 && s[i] == Xor(b, SIZE_MASK)
    ensures s[i..i + 1] == EncodeSize(b)
  {
    assert s[i..i + 1] == [s[i]];
  }

  lemma MaskedByte(s: Bytes, i: nat) returns (b: byte)
    requires i < |s|
    ensures b == Xor(s[i], SIZE_MASK) && s[i] == Xor(b, SIZE_MASK)
  {
    b := Xor(s[i], SIZE_MASK);
    XorTwice(s[i], SIZE_MASK);
  }

  lemma OneGroupIsShorter(s: Bytes, i: nat, next: nat, b: byte)
    requires i + 1 < next <= |s| && b >= 0x80
    ensures s[i..next] != EncodeSize(b - 0x80 + 0x80 * 0)
  {
    assert |EncodeSize(b - 0x80)| == 1 && |s[i..next]| > 1;
  }

  lemma CanonicalStep(s: Bytes, i: nat, next: nat, b: byte, v: nat)
    requires i + 1 < next <= |s| && v > 0 && b >= 0x80 && s[i] == Xor(b, SIZE_MASK)
    ensures s[i..next] == EncodeSize(b - 0x80 + 0x80 * v) <==> s[i + 1..next] == EncodeSize(v)
  {
    GroupsOf(b, v);
    assert s[i..next] == [s[i]] + s[i + 1..next];
    PrefixedEqually(s[i], s[i + 1..next], EncodeSize(v));
  }

  lemma GroupsOf(b: byte, v: nat)
    requires v > 0 && b >= 0x80
    ensures EncodeSize(b - 0x80 + 0x80 * v) == [Xor(b, SIZE_MASK)] + EncodeSize(v)
  {
    var n := b - 0x80 + 0x80 * v;
    assert n % 0x80 + 0x80 == b && n / 0x80 == v;
  }

  lemma PrefixedEqually(b: byte, x: Bytes, y: Bytes)
    ensures [b] + x == [b] + y <==> x == y
  {
    assert ([b] + x)[1..] == x && ([b] + y)[1..] == y;
  }

  /** A field worth zero ends in an idle group. */
  lemma {:induction false} ZeroIsIdle(s: Bytes, i: nat)
    requires i <= |s| && ReadSize(s, i, |s|).Size? && ReadSize(s, i, |s|).value == 0
    ensures Xor(s[ReadSize(s, i, |s|).next - 1], SIZE_MASK) == 0
    decreases |s| - i
  {
    if Xor(s[i], SIZE_MASK) >= 0x80 {
      ZeroIsIdle(s, i + 1);
    }
  }

  /** Five groups hold less than 2^35, so the walker's `u64` arithmetic never overflows. */
  lemma FiveGroupsStaySmall(s: Bytes, i: nat, end: nat)
    requires i <= end <= |s| && end - i <= 5 && ReadSize(s, i, end).Size?
    ensures ReadSize(s, i, end).value < SIZE_LIMIT
  {
    GroupsStaySmall(s, i, end, 5, SIZE_LIMIT);
  }

  lemma {:induction false} GroupsStaySmall(s: Bytes, i: nat, end: nat, groups: nat, limit: nat)
    requires i <= end <= |s| && end - i <= groups <= 5 && ReadSize(s, i, end).Size?
    requires limit == [1, 0x80, 0x4000, 0x20_0000, 0x1000_0000, SIZE_LIMIT][groups]
    ensures ReadSize(s, i, end).value < limit
    decreases groups
  {
    if Xor(s[i], SIZE_MASK) >= 0x80 {
      GroupsStaySmall(s, i + 1, end, groups - 1, limit / 0x80);
    }
  }

  /** A field that is not finished yet is finished by one idle group. */
  lemma {:induction false} IdleGroupFinishes(s: Bytes, i: nat, end: nat)
    requires i <= end < |s| && ReadSize(s, i, end) == Short && s[end] == SIZE_MASK
    ensures ReadSize(s, i, end + 1).Size? && ReadSize(s, i, end + 1).next == end + 1
    decreases end - i
  {
    XorOfZero(SIZE_MASK);
    XorTwice(0, SIZE_MASK);
    if i < end {
      IdleGroupFinishes(s, i + 1, end);
    }
  }

  /** Exactly the sizes below 2^35 fit the five groups the tail walker looks at. */
  lemma FiveGroupsExactly(n: nat)
    ensures |EncodeSize(n)| <= 5 <==> n < 0x8_0000_0000
  {
    var a := n / 0x80;
    var b := a / 0x80;
    var c := b / 0x80;
    var d := c / 0x80;
    assert n >= 0x80 ==> |EncodeSize(n)| == 1 + |EncodeSize(a)|;
    assert a >= 0x80 ==> |EncodeSize(a)| == 1 + |EncodeSize(b)|;
    assert b >= 0x80 ==> |EncodeSize(b)| == 1 + |EncodeSize(c)|;
    assert c >= 0x80 ==> |EncodeSize(c)| == 1 + |EncodeSize(d)|;
    assert d >= 0x80 ==> |EncodeSize(d)| == 1 + |EncodeSize(d / 0x80)| >= 2;
  }
}
