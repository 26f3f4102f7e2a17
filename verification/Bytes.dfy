/** Bytes, machine words and the two small helpers every other module uses. */
module Bytes {
  type byte = b: int | 0 <= b < 0x100
  type Bytes = seq<byte>

  /** Assigning to a machine word obliges the verifier to show that nothing overflows. */
  type u32 = n: int | 0 <= n < 0x1_0000_0000

  type u64 = n: int | 0 <= n < 0x1_0000_0000_0000_0000
  type i64 = n: int | -0x8000_0000_0000_0000 <= n < 0x8000_0000_0000_0000

  /** The length of a file: no filesystem reports more than an `i64` holds. */
  type FileLen = n: nat | n < 0x8000_0000_0000_0000

  datatype Option<+T> = None | Some(value: T)

  const MAGIC: Bytes := [0x4f, 0x50, 0x4c, 0x6f, 0x67, 0x20, 0x31, 0x2e, 0x30, 0x0a]  // "OPLog 1.0\n"

  /** Bitwise exclusive or: a bit of the result is set where the two bits differ. */
  function XorBits(a: nat, b: nat): nat {
    if a == 0 && b == 0 then 0
    else (if a % 2 == b % 2 then 0 else 1) + 2 * XorBits(a / 2, b / 2)
  }

  /** Bit `k` of a number. */
  function Bit(n: nat, k: nat): nat {
    if k == 0 then n % 2 else Bit(n / 2, k - 1)
  }

  /** A bit is set exactly where the two bits differ. */
  lemma {:induction false} XorBitsExactly(a: nat, b: nat, k: nat)
    ensures Bit(XorBits(a, b), k) == if Bit(a, k) == Bit(b, k) then 0 else 1
    decreases k
  {
    var x, i, y, j := a / 2, a % 2, b / 2, b % 2;
    XorOfBit(x, i, y, j);
    var r := XorBits(a, b);
    assert r / 2 == XorBits(x, y) && r % 2 == if i == j then 0 else 1;
    if k > 0 {
      XorBitsExactly(x, y, k - 1);
    }
  }

  function Xor(a: byte, b: byte): byte {
    XorBound(a, b, 0x80);
    XorBits(a, b)
  }

  lemma {:induction false} XorBound(a: nat, b: nat, half: nat)
    requires half in {1, 2, 4, 8, 0x10, 0x20, 0x40, 0x80}
    requires a < 2 * half && b < 2 * half
    ensures XorBits(a, b) < 2 * half
  {
    if half > 1 {
      XorBound(a / 2, b / 2, half / 2);
    }
  }

  lemma XorOfBit(x: nat, i: nat, y: nat, j: nat)
    requires i < 2 && j < 2
    ensures XorBits(2 * x + i, 2 * y + j) == (if i == j then 0 else 1) + 2 * XorBits(x, y)
  {
    var a, b := 2 * x + i, 2 * y + j;
    assert a / 2 == x && a % 2 == i && b / 2 == y && b % 2 == j;
  }

  lemma {:induction false} XorBitsTwice(a: nat, b: nat)
    ensures XorBits(XorBits(a, b), b) == a
  {
    if a != 0 || b != 0 {
      var x, i, y, j := a / 2, a % 2, b / 2, b % 2;
      XorBitsTwice(x, y);
      XorOfBit(x, i, y, j);
      XorOfBit(XorBits(x, y), if i == j then 0 else 1, y, j);
    }
  }

  lemma XorTwice(a: byte, b: byte)
    ensures Xor(Xor(a, b), b) == a
  {
    XorBitsTwice(a, b);
  }

  lemma {:induction false} XorBitsOfZero(b: nat)
    ensures XorBits(0, b) == b
  {
    if b != 0 {
      XorBitsOfZero(b / 2);
    }
  }

  lemma XorOfZero(b: byte)
    ensures Xor(0, b) == b
  {
    XorBitsOfZero(b);
  }

  /** `v << n`. */
  function Shl(v: nat, n: nat): nat {
    if n == 0 then v else 2 * Shl(v, n - 1)
  }

  lemma {:induction false} ShlAdds(a: nat, b: nat, n: nat)
    ensures Shl(a + b, n) == Shl(a, n) + Shl(b, n)
  {
    if n > 0 {
      ShlAdds(a, b, n - 1);
    }
  }

  /** Shifting seven places further counts 128 times as much. */
  lemma ShlBySeven(v: nat, n: nat)
    ensures Shl(v, n + 7) == 0x80 * Shl(v, n) == Shl(0x80 * v, n)
  {
    ShlAdds(v, v, n);
    ShlAdds(2 * v, 2 * v, n);
    ShlAdds(4 * v, 4 * v, n);
    ShlAdds(8 * v, 8 * v, n);
    ShlAdds(0x10 * v, 0x10 * v, n);
    ShlAdds(0x20 * v, 0x20 * v, n);
    ShlAdds(0x40 * v, 0x40 * v, n);
    assert Shl(v, n + 2) == 4 * Shl(v, n);
    assert Shl(v, n + 4) == 4 * Shl(v, n + 2);
    assert Shl(v, n + 6) == 4 * Shl(v, n + 4);
  }

  lemma {:induction false} ShlGrows(a: nat, b: nat, n: nat)
    requires a <= b
    ensures Shl(a, n) <= Shl(b, n)
  {
    ShlAdds(a, b - a, n);
  }

  lemma SliceGrows<T>(s: seq<T>, i: nat, j: nat)
    requires i <= j < |s|
    ensures s[i..j + 1] == s[i..j] + [s[j]]
  {
  }

  lemma SliceOfPrefix<T>(s: seq<T>, n: nat, i: nat, j: nat)
    requires i <= j <= n <= |s|
    ensures s[..n][i..j] == s[i..j]
  {
  }

  lemma SuffixOfSuffix<T>(s: seq<T>, i: nat, j: nat)
    requires i + j <= |s|
    ensures s[i..][j..] == s[i + j..]
  {
  }

  function Min(a: nat, b: nat): nat {
    if a < b then a else b
  }
}
