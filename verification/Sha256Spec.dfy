/** SHA-256 as defined in FIPS 180-4: the functions of section 4.1.2, the padding of section 5.1.1
    and the hash computation of section 6.2.2, on whole messages of bytes. */
module Sha256Spec {
  import opened Arithmetic

  type Byte = bv8
  type Word = bv32

  // The sixty-four constants of section 4.2.2, eight to a row.
  const ROW_1: seq<Word> := [0x428a2f98, 0x71374491, 0xb5c0fbcf, 0xe9b5dba5, 0x3956c25b, 0x59f111f1, 0x923f82a4, 0xab1c5ed5]
  const ROW_2: seq<Word> := [0xd807aa98, 0x12835b01, 0x243185be, 0x550c7dc3, 0x72be5d74, 0x80deb1fe, 0x9bdc06a7, 0xc19bf174]
  const ROW_3: seq<Word> := [0xe49b69c1, 0xefbe4786, 0x0fc19dc6, 0x240ca1cc, 0x2de92c6f, 0x4a7484aa, 0x5cb0a9dc, 0x76f988da]
  const ROW_4: seq<Word> := [0x983e5152, 0xa831c66d, 0xb00327c8, 0xbf597fc7, 0xc6e00bf3, 0xd5a79147, 0x06ca6351, 0x14292967]
  const ROW_5: seq<Word> := [0x27b70a85, 0x2e1b2138, 0x4d2c6dfc, 0x53380d13, 0x650a7354, 0x766a0abb, 0x81c2c92e, 0x92722c85]
  const ROW_6: seq<Word> := [0xa2bfe8a1, 0xa81a664b, 0xc24b8b70, 0xc76c51a3, 0xd192e819, 0xd6990624, 0xf40e3585, 0x106aa070]
  const ROW_7: seq<Word> := [0x19a4c116, 0x1e376c08, 0x2748774c, 0x34b0bcb5, 0x391c0cb3, 0x4ed8aa4a, 0x5b9cca4f, 0x682e6ff3]
  const ROW_8: seq<Word> := [0x748f82ee, 0x78a5636f, 0x84c87814, 0x8cc70208, 0x90befffa, 0xa4506ceb, 0xbef9a3f7, 0xc67178f2]

  /** The eight working variables, and also the eight words of a hash value. */
  datatype Regs = Regs(a: Word, b: Word, c: Word, d: Word, e: Word, f: Word, g: Word, h: Word)

  const INITIAL := Regs(
    0x6a09e667, 0xbb67ae85, 0x3c6ef372, 0xa54ff53a, 0x510e527f, 0x9b05688c, 0x1f83d9ab, 0x5be0cd19)

  // ---------------------------------------------------------------- sections 3.2 and 4.1.2

  /** The word operations, named so that the proofs can be made for any choice of them. */
  datatype WordOps = WordOps(
    add: (Word, Word) -> Word,
    ch: (Word, Word, Word) -> Word, maj: (Word, Word, Word) -> Word,
    bigSigma0: Word -> Word, bigSigma1: Word -> Word, smallSigma0: Word -> Word, smallSigma1: Word -> Word,
    bigEndian: (Byte, Byte, Byte, Byte) -> Word,
    constant: nat -> Word)

  /** The circular right shift of section 3.2. */
  function RotateRight(value: Word, bits: Word): Word
    requires 0 < bits < 32
  {
    (value >> bits) | (value << (32 - bits))
  }

  function Add(x: Word, y: Word): Word { x + y }
  function Ch(x: Word, y: Word, z: Word): Word { (x & y) ^ (!x & z) }
  function Maj(x: Word, y: Word, z: Word): Word { (x & y) ^ (x & z) ^ (y & z) }
  function BigSigma0(x: Word): Word { RotateRight(x, 2) ^ RotateRight(x, 13) ^ RotateRight(x, 22) }
  function BigSigma1(x: Word): Word { RotateRight(x, 6) ^ RotateRight(x, 11) ^ RotateRight(x, 25) }
  function SmallSigma0(x: Word): Word { RotateRight(x, 7) ^ RotateRight(x, 18) ^ (x >> 3) }
  function SmallSigma1(x: Word): Word { RotateRight(x, 17) ^ RotateRight(x, 19) ^ (x >> 10) }
  function BigEndianWord(a: Byte, b: Byte, c: Byte, d: Byte): Word {
    ((a as Word) << 24) | ((b as Word) << 16) | ((c as Word) << 8) | (d as Word)
  }

  function ConstantRow(n: nat): (k: seq<Word>)
    ensures |k| == 8
  {
    match n
    case 1 => ROW_1 case 2 => ROW_2 case 3 => ROW_3 case 4 => ROW_4
    case 5 => ROW_5 case 6 => ROW_6 case 7 => ROW_7 case _ => ROW_8
  }

  function RoundConstant(t: nat): Word { if t < 64 then ConstantRow(t / 8 + 1)[t % 8] else 0 }

  const FIPS := WordOps(Add, Ch, Maj, BigSigma0, BigSigma1, SmallSigma0, SmallSigma1, BigEndianWord, RoundConstant)

  /** Ch selects by bits of its first word, and Maj takes the majority of each bit. */
  lemma SelectAndMajority(x: Word, y: Word, z: Word)
    ensures Ch(x, y, z) == (x & y) | (!x & z)
    ensures Maj(x, y, z) == (x & y) | (x & z) | (y & z)
  {
  }

  /** The two shifts and the disjunction really rotate, for every amount that is used. */
  lemma RotationsRotate(x: Word)
    ensures RotateRight(x, 2) == x.RotateRight(2) && RotateRight(x, 13) == x.RotateRight(13)
    ensures RotateRight(x, 22) == x.RotateRight(22) && RotateRight(x, 6) == x.RotateRight(6)
    ensures RotateRight(x, 11) == x.RotateRight(11) && RotateRight(x, 25) == x.RotateRight(25)
    ensures RotateRight(x, 7) == x.RotateRight(7) && RotateRight(x, 18) == x.RotateRight(18)
    ensures RotateRight(x, 17) == x.RotateRight(17) && RotateRight(x, 19) == x.RotateRight(19)
  {
  }

  // ---------------------------------------------------------------- section 6.2.2

  /** The first sixteen words of the message schedule: the block itself. */
  function BlockWords(o: WordOps, block: seq<Byte>): (w: seq<Word>)
    requires |block| == 64
    ensures |w| == 16
  {
    seq(16, t requires 0 <= t < 16 => o.bigEndian(block[4 * t], block[4 * t + 1], block[4 * t + 2], block[4 * t + 3]))
  }

  function NextWord(o: WordOps, w: seq<Word>): Word
    requires |w| >= 16
  {
    var t := |w|;
    o.add(o.add(o.add(o.smallSigma1(w[t - 2]), w[t - 7]), o.smallSigma0(w[t - 15])), w[t - 16])
  }

  /** Extends a schedule to sixty-four words. */
  function Extend(o: WordOps, w: seq<Word>): (r: seq<Word>)
    requires 16 <= |w| <= 64
    ensures |r| == 64
    decreases 64 - |w|
  {
    if |w| == 64 then w else Extend(o, w + [NextWord(o, w)])
  }

  function Schedule(o: WordOps, block: seq<Byte>): (w: seq<Word>)
    requires |block| == 64
    ensures |w| == 64
  {
    Extend(o, BlockWords(o, block))
  }

  function T1(o: WordOps, v: Regs, k: Word, w: Word): Word {
    o.add(o.add(o.add(o.add(v.h, o.bigSigma1(v.e)), o.ch(v.e, v.f, v.g)), k), w)
  }

  function T2(o: WordOps, v: Regs): Word { o.add(o.bigSigma0(v.a), o.maj(v.a, v.b, v.c)) }

  function Round(o: WordOps, v: Regs, k: Word, w: Word): Regs {
    Regs(o.add(T1(o, v, k, w), T2(o, v)), v.a, v.b, v.c, o.add(v.d, T1(o, v, k, w)), v.e, v.f, v.g)
  }

  /** One round for every word given, with the constant of the same position. */
  function Rounds(o: WordOps, v: Regs, w: seq<Word>): Regs
  {
    if w == [] then v else
      var t := |w| - 1;
      Round(o, Rounds(o, v, w[..t]), o.constant(t), w[t])
  }

  function AddRegs(o: WordOps, x: Regs, y: Regs): Regs {
    Regs(o.add(x.a, y.a), o.add(x.b, y.b), o.add(x.c, y.c), o.add(x.d, y.d),
         o.add(x.e, y.e), o.add(x.f, y.f), o.add(x.g, y.g), o.add(x.h, y.h))
  }

  function Compress(o: WordOps, v: Regs, block: seq<Byte>): Regs
    requires |block| == 64
  {
    AddRegs(o, v, Rounds(o, v, Schedule(o, block)))
  }

  /** How one block changes the hash value. */
  type Compressor = (Regs, seq<Byte>) -> Regs

  function FipsCompressor(): Compressor {
    (v: Regs, block: seq<Byte>) => if |block| == 64 then Compress(FIPS, v, block) else v
  }

  /** The hash value after the first n blocks of m. */
  function HashBlocks(c: Compressor, m: seq<Byte>, n: nat): Regs
    requires 64 * n <= |m|
  {
    if n == 0 then INITIAL else c(HashBlocks(c, m, n - 1), m[64 * n - 64..64 * n])
  }

  // ---------------------------------------------------------------- section 5.1.1

  /** n as k bytes, most significant first (modulo 256 to the k). */
  function BigEndian(n: nat, k: nat): (r: seq<Byte>)
    ensures |r| == k
  {
    if k == 0 then [] else BigEndian(n / 256, k - 1) + [(n % 256) as Byte]
  }

  /** The number of zero bytes between the marker byte and the length. */
  function ZeroCount(length: nat): nat { (119 - length % 64) % 64 }

  lemma ZeroCountValue(length: nat)
    ensures ZeroCount(length) == if length % 64 <= 55 then 55 - length % 64 else 119 - length % 64
  {
  }

  /** It leaves exactly eight bytes of the last block for the length. */
  lemma ZeroCountFits(length: nat)
    ensures (length + 1 + ZeroCount(length)) % 64 == 56
  {
    var q, r := length / 64, length % 64;
    DivideSplit(length, 64);
    ZeroCountValue(length);
    DivideUnique(length + 1 + ZeroCount(length), 64, if r <= 55 then q else q + 1, 56);
  }

  /** No smaller count does. */
  lemma ZeroCountIsLeast(length: nat, k: nat)
    requires (length + 1 + k) % 64 == 56
    ensures ZeroCount(length) <= k
  {
    ZeroCountFits(length);
    if k < ZeroCount(length) {
      ZeroCountValue(length);
      SameResidueFar(length + 1 + k, length + 1 + ZeroCount(length), 64);
    }
  }

  function Zeros(n: nat): (r: seq<Byte>)
    ensures |r| == n && forall i :: 0 <= i < n ==> r[i] == 0
  {
    seq(n, _ => 0)
  }

  function Pad(m: seq<Byte>): seq<Byte> {
    m + [0x80] + Zeros(ZeroCount(|m|)) + BigEndian(8 * |m|, 8)
  }

  function BlockCount(length: nat): nat {
    length / 64 + if length % 64 <= 55 then 1 else 2
  }

  lemma PadFillsBlocks(m: seq<Byte>)
    ensures |Pad(m)| == 64 * BlockCount(|m|)
  {
    DivideSplit(|m|, 64);
  }

  // ---------------------------------------------------------------- the digest in hexadecimal

  function HexDigit(d: nat): char
    requires d < 16
  {
    "0123456789abcdef"[d]
  }

  function HexDigits(n: nat, k: nat): (s: string)
    ensures |s| == k
  {
    if k == 0 then "" else HexDigits(n / 16, k - 1) + [HexDigit(n % 16)]
  }

  function HexWord(w: Word): string { HexDigits(w as int, 8) }

  function HexRegs(v: Regs): string {
    HexWord(v.a) + HexWord(v.b) + HexWord(v.c) + HexWord(v.d) + HexWord(v.e) + HexWord(v.f) + HexWord(v.g) + HexWord(v.h)
  }

  function Digest(c: Compressor, m: seq<Byte>): string {
    PadFillsBlocks(m);
    HexRegs(HashBlocks(c, Pad(m), BlockCount(|m|)))
  }

  function Sha256(m: seq<Byte>): string { Digest(FipsCompressor(), m) }

  /** The hash of the first n blocks depends on nothing else. */
  lemma {:induction false} HashBlocksPrefix(c: Compressor, m: seq<Byte>, m': seq<Byte>, n: nat)
    requires 64 * n <= |m| && 64 * n <= |m'| && m[..64 * n] == m'[..64 * n]
    ensures HashBlocks(c, m, n) == HashBlocks(c, m', n)
  {
    if n > 0 {
      assert m[..64 * (n - 1)] == m[..64 * n][..64 * (n - 1)];
      assert m'[..64 * (n - 1)] == m'[..64 * n][..64 * (n - 1)];
      HashBlocksPrefix(c, m, m', n - 1);
      assert m[64 * n - 64..64 * n] == m[..64 * n][64 * n - 64..];
      assert m'[64 * n - 64..64 * n] == m'[..64 * n][64 * n - 64..];
    }
  }
}
