/** SHA-256 as defined by FIPS 180-4: sections 4.1.2, 4.2.2, 5.1.1, 5.2.1, 5.3.3 and 6.2. */
module Sha256Spec {

  // ----- section 2.2.2: operations on words -----

  /** Addition modulo 2^32. */
  function Add(x: bv32, y: bv32): bv32 { x + y }

  // ----- section 4.1.2: functions -----

  function RotR(x: bv32, n: bv6): bv32
    requires 0 < n < 32
  {
    (x >> n) | (x << (32 - n))
  }

  function Ch(x: bv32, y: bv32, z: bv32): bv32 { (x & y) ^ (!x & z) }

  function Maj(x: bv32, y: bv32, z: bv32): bv32 { (x & y) ^ (x & z) ^ (y & z) }

  /** Each bit of `x` chooses between `y` and `z`. */
  lemma Choice(x: bv32, y: bv32, z: bv32)
    ensures Ch(x, y, z) & x == y & x
    ensures Ch(x, y, z) & !x == z & !x
  {}

  /** What two of the three have in common, the majority has. */
  lemma Majority(x: bv32, y: bv32, z: bv32)
    ensures Maj(x, y, z) & (x & y) == x & y && Maj(x, y, z) | x | y == x | y
  {}

  /** The order does not matter. */
  lemma MajoritySymmetric(x: bv32, y: bv32, z: bv32)
    ensures Maj(x, y, z) == Maj(y, x, z) && Maj(x, y, z) == Maj(z, x, y)
  {}

  /** The two shifts are a rotation, for the amounts of the standard. */
  lemma Rotation(x: bv32)
    ensures RotR(x, 2) == x.RotateRight(2) && RotR(x, 6) == x.RotateRight(6) && RotR(x, 7) == x.RotateRight(7)
    ensures RotR(x, 11) == x.RotateRight(11) && RotR(x, 13) == x.RotateRight(13)
    ensures RotR(x, 17) == x.RotateRight(17)
    ensures RotR(x, 18) == x.RotateRight(18) && RotR(x, 19) == x.RotateRight(19)
    ensures RotR(x, 22) == x.RotateRight(22) && RotR(x, 25) == x.RotateRight(25)
  {}

  function BigSigma0(x: bv32): bv32 { RotR(x, 2) ^ RotR(x, 13) ^ RotR(x, 22) }

  function BigSigma1(x: bv32): bv32 { RotR(x, 6) ^ RotR(x, 11) ^ RotR(x, 25) }

  function SmallSigma0(x: bv32): bv32 { RotR(x, 7) ^ RotR(x, 18) ^ (x >> 3) }

  function SmallSigma1(x: bv32): bv32 { RotR(x, 17) ^ RotR(x, 19) ^ (x >> 10) }

  // ----- section 4.2.2: constants -----

  function KRow(r: nat): (k: seq<bv32>)
    ensures |k| == 8
  {
    match r
    case 0 => [0x428a2f98, 0x71374491, 0xb5c0fbcf, 0xe9b5dba5, 0x3956c25b, 0x59f111f1, 0x923f82a4, 0xab1c5ed5]
    case 1 => [0xd807aa98, 0x12835b01, 0x243185be, 0x550c7dc3, 0x72be5d74, 0x80deb1fe, 0x9bdc06a7, 0xc19bf174]
    case 2 => [0xe49b69c1, 0xefbe4786, 0x0fc19dc6, 0x240ca1cc, 0x2de92c6f, 0x4a7484aa, 0x5cb0a9dc, 0x76f988da]
    case 3 => [0x983e5152, 0xa831c66d, 0xb00327c8, 0xbf597fc7, 0xc6e00bf3, 0xd5a79147, 0x06ca6351, 0x14292967]
    case 4 => [0x27b70a85, 0x2e1b2138, 0x4d2c6dfc, 0x53380d13, 0x650a7354, 0x766a0abb, 0x81c2c92e, 0x92722c85]
    case 5 => [0xa2bfe8a1, 0xa81a664b, 0xc24b8b70, 0xc76c51a3, 0xd192e819, 0xd6990624, 0xf40e3585, 0x106aa070]
    case 6 => [0x19a4c116, 0x1e376c08, 0x2748774c, 0x34b0bcb5, 0x391c0cb3, 0x4ed8aa4a, 0x5b9cca4f, 0x682e6ff3]
    case _ => [0x748f82ee, 0x78a5636f, 0x84c87814, 0x8cc70208, 0x90befffa, 0xa4506ceb, 0xbef9a3f7, 0xc67178f2]
  }

  /** The constants, in eight rows of eight. */
  function K(t: nat): bv32
    requires t < 64
  {
    KRow(t / 8)[t % 8]
  }

  // ----- section 5.3.3: initial hash value -----

  function H0(): (h: seq<bv32>)
    ensures |h| == 8
  {
    [0x6a09e667, 0xbb67ae85, 0x3c6ef372, 0xa54ff53a, 0x510e527f, 0x9b05688c, 0x1f83d9ab, 0x5be0cd19]
  }

  // ----- section 5.1.1: padding -----

  function Zeros(n: nat): (z: seq<bv8>)
    ensures |z| == n
  {
    seq(n, i => 0)
  }

  function Pow256(i: nat): (p: nat)
    ensures p > 0
  {
    if i == 0 then 1 else 256 * Pow256(i - 1)
  }

  const TWO_64 := 0x1_0000_0000_0000_0000

  /** A 64-bit number, most significant byte first. */
  function Be64(n: nat): (b: seq<bv8>)
    requires n < TWO_64
    ensures |b| == 8
  {
    seq(8, i requires 0 <= i < 8 => (n / Pow256(7 - i) % 256) as bv8)
  }

  /** The number of zero bytes behind the byte 0x80 that makes the length 56 modulo 64. */
  function Gap(len: nat): (k: nat)
    ensures k < 64 && (len + 1 + k) % 64 == 56
  {
    (119 - len % 64) % 64
  }

  lemma PadLength(len: nat)
    ensures (len + 1 + Gap(len) + 8) % 64 == 0
  {
    var n := len + 1 + Gap(len);
    hide Gap;
    assert n == 64 * (n / 64) + 56;
    assert n + 8 == 64 * (n / 64 + 1);
  }

  /** The message, a one bit, zero bits and the length in bits as a 64-bit number.  The standard
      defines this for messages below 2^64 bits, where the reduction has no effect. */
  function Pad(m: seq<bv8>): (p: seq<bv8>)
    ensures |p| % 64 == 0
  {
    PadLength(|m|);
    m + [0x80] + Zeros(Gap(|m|)) + Be64(8 * |m| % TWO_64)
  }

  // ----- section 6.2.2: one block -----

  function Word(b: seq<bv8>, i: nat): bv32
    requires 4 * i + 4 <= |b|
  {
    ((b[4 * i] as bv32) << 24) | ((b[4 * i + 1] as bv32) << 16) | ((b[4 * i + 2] as bv32) << 8) | (b[4 * i + 3] as bv32)
  }

  function Extend(w2: bv32, w7: bv32, w15: bv32, w16: bv32): bv32 {
    Add(Add(Add(SmallSigma1(w2), w7), SmallSigma0(w15)), w16)
  }

  /** The message schedule. */
  function W(block: seq<bv8>, t: nat): bv32
    requires |block| == 64
  {
    if t < 16 then Word(block, t)
    else Extend(W(block, t - 2), W(block, t - 7), W(block, t - 15), W(block, t - 16))
  }

  /** The eight working variables. */
  datatype Regs = Regs(a: bv32, b: bv32, c: bv32, d: bv32, e: bv32, f: bv32, g: bv32, h: bv32)

  function Round(r: Regs, k: bv32, w: bv32): Regs {
    var t1 := Add(Add(Add(Add(r.h, BigSigma1(r.e)), Ch(r.e, r.f, r.g)), k), w);
    var t2 := Add(BigSigma0(r.a), Maj(r.a, r.b, r.c));
    Regs(Add(t1, t2), r.a, r.b, r.c, Add(r.d, t1), r.e, r.f, r.g)
  }

  function Start(h: seq<bv32>): Regs
    requires |h| == 8
  {
    Regs(h[0], h[1], h[2], h[3], h[4], h[5], h[6], h[7])
  }

  function Rounds(h: seq<bv32>, block: seq<bv8>, t: nat): Regs
    requires |h| == 8 && |block| == 64 && t <= 64
  {
    if t == 0 then Start(h) else Round(Rounds(h, block, t - 1), K(t - 1), W(block, t - 1))
  }

  lemma RoundsStep(h: seq<bv32>, block: seq<bv8>, t: nat)
    requires |h| == 8 && |block| == 64 && t < 64
    ensures Rounds(h, block, t + 1) == Round(Rounds(h, block, t), K(t), W(block, t))
  {
    hide K, W, Round;
  }

  lemma WStep(block: seq<bv8>, t: nat)
    requires |block| == 64
    ensures t < 16 ==> W(block, t) == Word(block, t)
    ensures t >= 16 ==> W(block, t) == Extend(W(block, t - 2), W(block, t - 7), W(block, t - 15), W(block, t - 16))
  {
    hide Word, Extend;
  }

  function AddTo(h: seq<bv32>, r: Regs): (s: seq<bv32>)
    requires |h| == 8
    ensures |s| == 8
  {
    [Add(h[0], r.a), Add(h[1], r.b), Add(h[2], r.c), Add(h[3], r.d),
     Add(h[4], r.e), Add(h[5], r.f), Add(h[6], r.g), Add(h[7], r.h)]
  }

  function Compress(h: seq<bv32>, block: seq<bv8>): (s: seq<bv32>)
    requires |h| == 8 && |block| == 64
    ensures |s| == 8
  {
    AddTo(h, Rounds(h, block, 64))
  }

  // ----- section 6.2: the whole message -----

  /** Folds the compression function over the 64-byte blocks of `m`. */
  function HashBlocks(h: seq<bv32>, m: seq<bv8>): (s: seq<bv32>)
    requires |h| == 8
    ensures |s| == 8
    decreases |m|
  {
    if |m| < 64 then h else HashBlocks(Compress(h, m[..64]), m[64..])
  }

  function Bytes(w: bv32): seq<bv8> {
    [((w >> 24) & 0xff) as bv8, ((w >> 16) & 0xff) as bv8, ((w >> 8) & 0xff) as bv8, (w & 0xff) as bv8]
  }

  function BigEndian(h: seq<bv32>): (b: seq<bv8>)
    ensures |b| == 4 * |h|
  {
    if h == [] then [] else BigEndian(h[..|h| - 1]) + Bytes(h[|h| - 1])
  }

  function Sha256(m: seq<bv8>): (d: seq<bv8>)
    ensures |d| == 32
  {
    BigEndian(HashBlocks(H0(), Pad(m)))
  }

  /** Blocks are folded one by one, so a block can be added at the end. */
  lemma {:induction false} HashAppend(h: seq<bv32>, m: seq<bv8>, block: seq<bv8>)
    requires |h| == 8 && |m| % 64 == 0 && |block| == 64
    ensures HashBlocks(h, m + block) == Compress(HashBlocks(h, m), block)
    decreases |m|
  {
    hide Compress;
    if m == [] {
      assert m + block == block && block[..64] == block && block[64..] == [];
    } else {
      assert (m + block)[..64] == m[..64];
      assert (m + block)[64..] == m[64..] + block;
      HashAppend(Compress(h, m[..64]), m[64..], block);
    }
  }
}
