/** Checksum and obfuscation of a frame's payload (src/write_to_file.rs, `xor_seed` and the encrypt loop). */
module Keystream {
  import opened Bytes

  function XorSeed(rnd: byte, size: nat): (seed: u32)
    ensures seed < 0x1000
  {
    // `as u32` truncates, `wrapping_mul` keeps 32 bits, `& 0xFFF` keeps 12
    (rnd * (size % 0x1_0000_0000)) % 0x1_0000_0000 % 0x1000
  }

  /** The keystream's state after `n` steps. */
  function KeyAt(seed: u32, n: nat): (key: u32)
    requires seed < 0x1000
    ensures key < 0x1000
  {
    if n == 0 then seed else NextKey(KeyAt(seed, n - 1))
  }

  function NextKey(key: u32): (next: u32)
    ensures next < 0x1000
  {
    (key * 2903 + 71) % 0x1000
  }

  function Obfuscate(z: Bytes, seed: u32): (r: Bytes)
    requires seed < 0x1000
    ensures |r| == |z|
  {
    seq(|z|, i requires 0 <= i < |z| => Xor(z[i], KeyAt(seed, i + 1) % 0x100))
  }

  function ByteSum(z: Bytes): nat {
    if z == [] then 0 else ByteSum(z[..|z| - 1]) + z[|z| - 1]
  }

  function Checksum(z: Bytes): byte {
    ByteSum(z) % 0x100
  }

  lemma ObfuscateTwice(z: Bytes, seed: u32)
    requires seed < 0x1000
    ensures Obfuscate(Obfuscate(z, seed), seed) == z
  {
    var r := Obfuscate(z, seed);
    forall i | 0 <= i < |z| ensures Obfuscate(r, seed)[i] == z[i] {
      XorTwice(z[i], KeyAt(seed, i + 1) % 0x100);
    }
  }

  lemma LowBitsOfSum(x: nat, t: nat)
    ensures (x + t * 0x1000) % 0x1000 == x % 0x1000
  {
  }

  /** The wrapped, truncated product has the same low bits as the full one. */
  lemma SeedOfFullProduct(rnd: byte, size: nat)
    ensures XorSeed(rnd, size) == (rnd * size) % 0x1000
  {
    var q, s := size / 0x1_0000_0000, size % 0x1_0000_0000;
    var p := rnd * s;
    assert rnd * size == p + (rnd * q * 0x10_0000) * 0x1000 by {
      assert size == q * 0x1_0000_0000 + s;
      assert rnd * size == rnd * (q * 0x1_0000_0000) + rnd * s;
      assert rnd * (q * 0x1_0000_0000) == (rnd * q) * 0x1_0000_0000;
    }
    LowBitsOfSum(p, rnd * q * 0x10_0000);
    LowBitsOfSum(p % 0x1_0000_0000, p / 0x1_0000_0000 * 0x10_0000);
  }

  // ---------------------------------------------------------------------------------------------
  // Which keystream it is
  // ---------------------------------------------------------------------------------------------

  function Pow(b: nat, n: nat): nat {
    if n == 0 then 1 else b * Pow(b, n - 1)
  }

  /** `2903^0 + … + 2903^(n - 1)`. */
  function Geometric(n: nat): nat {
    if n == 0 then 0 else Geometric(n - 1) + Pow(2903, n - 1)
  }

  lemma {:induction false} GeometricStep(n: nat)
    ensures Geometric(n + 1) == 2903 * Geometric(n) + 1
  {
    if n > 0 {
      GeometricStep(n - 1);
    } else {
      assert Pow(2903, 0) == 1;
    }
  }

  lemma StepOfRest(x: nat)
    ensures (x % 0x1000 * 2903 + 71) % 0x1000 == (x * 2903 + 71) % 0x1000
  {
    LowBitsOfSum(x % 0x1000 * 2903 + 71, x / 0x1000 * 2903);
  }

  lemma TimesSeed(p: nat, seed: nat)
    ensures 2903 * (p * seed) == (2903 * p) * seed
  {
  }

  /** One step takes the closed form on. */
  lemma ClosedFormStep(p: nat, g: nat, seed: nat)
    ensures (p * seed + 71 * g) * 2903 + 71 == (2903 * p) * seed + 71 * (2903 * g + 1)
  {
    TimesSeed(p, seed);
  }

  ghost function ClosedForm(seed: nat, n: nat): nat {
    Pow(2903, n) * seed + 71 * Geometric(n)
  }

  lemma ClosedFormNext(seed: nat, n: nat)
    ensures ClosedForm(seed, n + 1) == ClosedForm(seed, n) * 2903 + 71
  {
    GeometricStep(n);
    ClosedFormStep(Pow(2903, n), Geometric(n), seed);
  }

  /** Numbers that grow by the keystream's step, without its mask, have its states as their low bits. */
  lemma {:induction false} KeyIsLowBits(seed: u32, f: nat -> nat, n: nat)
    requires seed < 0x1000 && f(0) == seed && forall k: nat :: f(k + 1) == f(k) * 2903 + 71
    ensures KeyAt(seed, n) == f(n) % 0x1000
  {
    if n > 0 {
      KeyIsLowBits(seed, f, n - 1);
      StepOfRest(f(n - 1));
      assert f(n - 1 + 1) == f(n - 1) * 2903 + 71;
    }
  }

  /** The keystream's state from any start, without its steps. */
  lemma KeyInClosedForm(seed: u32, n: nat)
    requires seed < 0x1000
    ensures KeyAt(seed, n) == (Pow(2903, n) * seed + 71 * Geometric(n)) % 0x1000
  {
    var f := (k: nat) => ClosedForm(seed, k);
    forall k: nat ensures f(k + 1) == f(k) * 2903 + 71 {
      ClosedFormNext(seed, k);
    }
    KeyIsLowBits(seed, f, n);
  }

  lemma SeedUnderPower(p: nat, full: nat, rest: nat)
    ensures (p * (full % 0x1000) + rest) % 0x1000 == (p * full + rest) % 0x1000
  {
    var q, r := full / 0x1000, full % 0x1000;
    assert p * full == p * r + (p * q) * 0x1000 by {
      assert full == q * 0x1000 + r;
    }
    LowBitsOfSum(p * r + rest, p * q);
  }

  /** The byte of the keystream at `i`, from the random byte and the length alone. */
  lemma KeyOnDisk(rnd: byte, size: nat, i: nat)
    ensures KeyAt(XorSeed(rnd, size), i + 1) ==
      (Pow(2903, i + 1) * (rnd * size) + 71 * Geometric(i + 1)) % 4096
  {
    SeedOfFullProduct(rnd, size);
    KeyInClosedForm(XorSeed(rnd, size), i + 1);
    SeedUnderPower(Pow(2903, i + 1), rnd * size, 71 * Geometric(i + 1));
  }

  /** The bytes on disk are the payload's, each under its byte of that keystream. */
  ghost predicate Masked(z: Bytes, rnd: byte, onDisk: Bytes) {
    |onDisk| == |z| && forall i :: 0 <= i < |z| ==>
      onDisk[i] == Xor(z[i], (Pow(2903, i + 1) * (rnd * |z|) + 71 * Geometric(i + 1)) % 4096 % 256)
  }

  /** The obfuscated payload, exactly. */
  lemma ObfuscatedExactly(z: Bytes, rnd: byte, onDisk: Bytes)
    ensures Masked(z, rnd, onDisk) <==> onDisk == Obfuscate(z, XorSeed(rnd, |z|))
  {
    var r := Obfuscate(z, XorSeed(rnd, |z|));
    forall i | 0 <= i < |z|
      ensures r[i] == Xor(z[i], (Pow(2903, i + 1) * (rnd * |z|) + 71 * Geometric(i + 1)) % 4096 % 256)
    {
      KeyOnDisk(rnd, |z|, i);
    }
  }

  /** The byte sum is the sum of the bytes. */
  lemma {:induction false} ByteSumAdds(a: Bytes, b: Bytes)
    ensures ByteSum(a + b) == ByteSum(a) + ByteSum(b)
    ensures |b| == 1 ==> ByteSum(b) == b[0]
  {
    if b == [] {
      assert a + b == a;
    } else {
      var n := |b| - 1;
      assert (a + b)[..|a + b| - 1] == a + b[..n];
      ByteSumAdds(a, b[..n]);
    }
  }

  /** One step of the keystream; the assignments to `u32` show that nothing overflows. */
  method Advance(key: u32) returns (xor: u32)
    requires key < 0x1000
    ensures xor == NextKey(key) && xor == (key * 2903 + 71) % 4096
  {
    xor := key;
    xor := xor * 2903;
    xor := xor + 71;
    xor := xor % 0x1000;
  }

  method AddTo(sum: u32, b: byte) returns (r: u32)
    requires sum < 0x100
    ensures r == (sum + b) % 0x100
  {
    r := sum + b;
    r := r % 0x100;
  }

  lemma SumStep(z: Bytes, i: nat)
    requires i < |z|
    ensures ByteSum(z[..i + 1]) % 0x100 == (ByteSum(z[..i]) % 0x100 + z[i]) % 0x100
  {
    assert z[..i + 1][..i] == z[..i];
  }

  /** The encrypt loop: checksum and keystream in one pass over the payload. */
  method ObfuscateInPlace(a: array<byte>, seed: u32) returns (checksum: byte)
    requires seed < 0x1000
    modifies a
    ensures a[..] == Obfuscate(old(a[..]), seed)
    ensures checksum == Checksum(old(a[..]))
  {
    ghost var z := a[..];
    var sum: u32, xor: u32 := 0, seed;
    for i := 0 to a.Length
      invariant sum == ByteSum(z[..i]) % 0x100
      invariant xor == KeyAt(seed, i)
      invariant forall j :: 0 <= j < i ==> a[j] == Xor(z[j], KeyAt(seed, j + 1) % 0x100)
      invariant forall j :: i <= j < a.Length ==> a[j] == z[j]
    {
      SumStep(z, i);
      sum := AddTo(sum, a[i]);
      xor := Advance(xor);
      assert xor == KeyAt(seed, i + 1);
      a[i] := Xor(a[i], xor % 0x100);
    }
    assert z[..a.Length] == z;
    checksum := sum;
  }
}
