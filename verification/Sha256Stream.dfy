/** The streaming SHA-256 object: a 64-byte buffer, a running state and a byte count. */
module Sha256Stream {
  import opened Arithmetic
  import opened Sha256Spec

  // ---------------------------------------------------------------- formatting as programmed

  /** Shortest hexadecimal form, as a stream prints it. */
  function ShortHex(n: nat): string {
    if n < 16 then [HexDigit(n)] else ShortHex(n / 16) + [HexDigit(n % 16)]
  }

  function PadLeft(s: string, width: nat): string
    decreases width - |s|
  {
    if |s| >= width then s else PadLeft("0" + s, width)
  }

  function Power16(k: nat): nat {
    if k == 0 then 1 else 16 * Power16(k - 1)
  }

  lemma {:induction false} ZeroDigits(k: nat)
    ensures HexDigits(0, k) == seq(k, _ => '0')
  {
    if k > 0 {
      ZeroDigits(k - 1);
      assert seq(k, _ => '0') == seq(k - 1, _ => '0') + ['0'];
    }
  }

  lemma {:induction false} PadLeftFills(s: string, width: nat)
    requires |s| <= width
    ensures PadLeft(s, width) == seq(width - |s|, _ => '0') + s
    decreases width - |s|
  {
    if |s| < width {
      PadLeftFills("0" + s, width);
      assert seq(width - |s|, _ => '0') == seq(width - |s| - 1, _ => '0') + ['0'];
    }
  }

  /** A fixed number of digits is the shortest form with zeros in front. */
  lemma {:induction false} ShortHexFits(n: nat, k: nat)
    requires k >= 1 && n < Power16(k)
    ensures |ShortHex(n)| <= k
    ensures HexDigits(n, k) == seq(k - |ShortHex(n)|, _ => '0') + ShortHex(n)
    decreases k
  {
    if n < 16 {
      ZeroDigits(k - 1);
    } else {
      assert k >= 2;
      ShortHexFits(n / 16, k - 1);
    }
  }

  lemma WordFormat(w: Word)
    ensures PadLeft(ShortHex(w as int), 8) == HexWord(w)
  {
    assert Power16(8) == 0x1_0000_0000;
    ShortHexFits(w as int, 8);
    PadLeftFills(ShortHex(w as int), 8);
  }

  function Power256(k: nat): (p: nat)
    ensures p > 0
  {
    if k == 0 then 1 else 256 * Power256(k - 1)
  }

  /** Byte `i` from the right of a big-endian number is the number shifted right by `8 * i` bits. */
  lemma {:induction false} BigEndianAt(n: nat, k: nat, i: nat)
    requires i < k
    ensures BigEndian(n, k)[k - 1 - i] == ((n / Power256(i)) % 256) as Byte
  {
    if i > 0 {
      BigEndianAt(n / 256, k - 1, i - 1);
      DivideTwice(n, 256, Power256(i - 1));
    }
  }

  /** Only the low 64 bits of the bit count are written. */
  lemma {:induction false} BigEndianWraps(n: nat, k: nat)
    ensures BigEndian(n % Power256(k), k) == BigEndian(n, k)
  {
    if k > 0 {
      var m := n % Power256(k);
      ModuloSplit(n, 256, Power256(k - 1));
      BigEndianWraps(n / 256, k - 1);
    }
  }

  lemma ModuloSplit(n: nat, a: nat, b: nat)
    requires a > 0 && b > 0
    ensures a * b > 0 && (n % (a * b)) % a == n % a && (n % (a * b)) / a == (n / a) % b
  {
    var q := n / a;
    DivideSplit(n, a);
    DivideSplit(q, b);
    var r := (q % b) * a + n % a;
    MulMonotone(q % b + 1, b, a);
    MulNext(q % b, a);
    assert n == (q / b) * (a * b) + r;
    DivideUnique(n, a * b, q / b, r);
    DivideUnique(r, a, q % b, n % a);
  }

  // ---------------------------------------------------------------- the object

  ghost function AsRegs(s: seq<Word>): Regs
    requires |s| == 8
  {
    Regs(s[0], s[1], s[2], s[3], s[4], s[5], s[6], s[7])
  }

  ghost predicate TiesAt(c: Compressor, o: WordOps, v: Regs, block: seq<Byte>) {
    |block| == 64 ==> c(v, block) == Compress(o, v, block)
  }

  /** `c` is the compression that the operations `o` compute. */
  ghost predicate Ties(c: Compressor, o: WordOps) {
    forall v, block {:trigger TiesAt(c, o, v, block)} :: TiesAt(c, o, v, block)
  }

  class Sha256 {
    const o: WordOps
    ghost const c: Compressor
    var state: array<Word>
    var buffer: array<Byte>
    var bufferSize: nat
    var totalSize: nat

    /** `m` has been absorbed: its `n` whole blocks are hashed and the rest waits in the buffer. What
        the buffer holds beyond that is arbitrary. */
    ghost predicate Absorbed(m: seq<Byte>, n: nat)
      reads this, state, buffer
    {
      Holding(m, n) && bufferSize < 64
    }

    /** The same, except that the buffer may be full. */
    ghost predicate Holding(m: seq<Byte>, n: nat)
      reads this, state, buffer
    {
      && state.Length == 8 && buffer.Length == 64
      && Ties(c, o)
      && |m| == 64 * n + bufferSize && bufferSize <= 64
      && buffer[..bufferSize] == m[64 * n..]
      && AsRegs(state[..]) == HashBlocks(c, m, n)
    }

    ghost predicate Valid(m: seq<Byte>)
      reads this, state, buffer
    {
      Absorbed(m, |m| / 64) && totalSize == |m| % 0x1_0000_0000_0000_0000
    }

    constructor ()
      ensures c == FipsCompressor() && Valid([]) && fresh(state) && fresh(buffer)
    {
      o, c := FIPS, FipsCompressor();
      state := new Word[8] [0x6a09e667, 0xbb67ae85, 0x3c6ef372, 0xa54ff53a, 0x510e527f, 0x9b05688c, 0x1f83d9ab, 0x5be0cd19];
      buffer := new Byte[64](_ => 0);
      bufferSize, totalSize := 0, 0;
    }

    method LoadWords(chunk: seq<Byte>, schedule: array<Word>)
      requires |chunk| == 64 && schedule.Length == 64
      modifies schedule
      ensures schedule[..16] == BlockWords(o, chunk)
    {
      var i := 0;
      while i < 16
        invariant 0 <= i <= 16
        invariant forall t :: 0 <= t < i ==> schedule[t] == BlockWords(o, chunk)[t]
      {
        var base := i * 4;
        schedule[i] := o.bigEndian(chunk[base], chunk[base + 1], chunk[base + 2], chunk[base + 3]);
        i := i + 1;
      }
    }

    method ExtendWords(schedule: array<Word>)
      requires schedule.Length == 64
      modifies schedule
      ensures schedule[..64] == Extend(o, old(schedule[..16]))
    {
      var i := 16;
      while i < 64
        invariant 16 <= i <= 64
        invariant Extend(o, schedule[..i]) == Extend(o, old(schedule[..16]))
      {
        ghost var known := schedule[..i];
        assert known[i - 2] == schedule[i - 2] && known[i - 7] == schedule[i - 7];
        assert known[i - 15] == schedule[i - 15] && known[i - 16] == schedule[i - 16];
        schedule[i] := o.add(o.add(o.add(o.smallSigma1(schedule[i - 2]), schedule[i - 7]), o.smallSigma0(schedule[i - 15])),
                             schedule[i - 16]);
        assert schedule[..i + 1] == known + [NextWord(o, known)];
        i := i + 1;
      }
    }

    method BuildSchedule(chunk: seq<Byte>) returns (w: seq<Word>)
      requires |chunk| == 64
      ensures w == Schedule(o, chunk)
    {
      var schedule := new Word[64](_ => 0);
      LoadWords(chunk, schedule);
      ExtendWords(schedule);
      w := schedule[..64];
    }

    method Transform(chunk: seq<Byte>)
      requires |chunk| == 64 && state.Length == 8 && Ties(c, o)
      modifies state
      ensures AsRegs(state[..]) == c(old(AsRegs(state[..])), chunk)
    {
      assert TiesAt(c, o, AsRegs(state[..]), chunk);
      RunRounds(chunk);
    }

    method RunRounds(chunk: seq<Byte>)
      requires |chunk| == 64 && state.Length == 8
      modifies state
      ensures AsRegs(state[..]) == Compress(o, old(AsRegs(state[..])), chunk)
    {
      var schedule := BuildSchedule(chunk);
      var a, b, c, d, e, f, g, h := MixWords(schedule);
      AddToState(a, b, c, d, e, f, g, h);
    }

    method AddToState(a: Word, b: Word, c: Word, d: Word, e: Word, f: Word, g: Word, h: Word)
      requires state.Length == 8
      modifies state
      ensures AsRegs(state[..]) == AddRegs(o, old(AsRegs(state[..])), Regs(a, b, c, d, e, f, g, h))
    {
      state[0] := o.add(state[0], a);
      state[1] := o.add(state[1], b);
      state[2] := o.add(state[2], c);
      state[3] := o.add(state[3], d);
      state[4] := o.add(state[4], e);
      state[5] := o.add(state[5], f);
      state[6] := o.add(state[6], g);
      state[7] := o.add(state[7], h);
    }

    /** The working variables after one round for each word of the schedule. */
    method MixWords(schedule: seq<Word>)
      returns (a: Word, b: Word, c: Word, d: Word, e: Word, f: Word, g: Word, h: Word)
      requires state.Length == 8
      ensures Regs(a, b, c, d, e, f, g, h) == Rounds(o, AsRegs(state[..]), schedule)
    {
      ghost var v := AsRegs(state[..]);
      a, b, c, d := state[0], state[1], state[2], state[3];
      e, f, g, h := state[4], state[5], state[6], state[7];
      var i := 0;
      while i < |schedule|
        invariant 0 <= i <= |schedule|
        invariant Regs(a, b, c, d, e, f, g, h) == Rounds(o, v, schedule[..i])
      {
        RoundsStep(o, v, schedule, i);
        var t1 := o.add(o.add(o.add(o.add(h, o.bigSigma1(e)), o.ch(e, f, g)), o.constant(i)), schedule[i]);
        var t2 := o.add(o.bigSigma0(a), o.maj(a, b, c));
        h := g;
        g := f;
        f := e;
        e := o.add(d, t1);
        d := c;
        c := b;
        b := a;
        a := o.add(t1, t2);
        i := i + 1;
      }
      assert schedule[..i] == schedule;
    }

    method Fill(part: seq<Byte>, ghost m: seq<Byte>, ghost n: nat)
      requires Absorbed(m, n) && |part| <= 64 - bufferSize
      modifies this`bufferSize, buffer
      ensures Holding(m + part, n) && bufferSize == old(bufferSize) + |part|
    {
      ghost var before := buffer[..bufferSize];
      forall i | 0 <= i < |part| {
        buffer[bufferSize + i] := part[i];
      }
      assert buffer[..bufferSize + |part|] == before + part;
      bufferSize := bufferSize + |part|;
      assert (m + part)[64 * n..] == m[64 * n..] + part;
      HashBlocksPrefix(c, m, m + part, n);
    }

    method Flush(ghost m: seq<Byte>, ghost n: nat)
      requires Holding(m, n) && bufferSize == 64
      modifies this`bufferSize, state
      ensures Absorbed(m, n + 1) && bufferSize == 0
    {
      assert buffer[..] == buffer[..64];
      assert m[64 * n..] == m[64 * (n + 1) - 64..64 * (n + 1)];
      Transform(buffer[..]);
      bufferSize := 0;
    }

    /** Copies a part into the buffer and hashes the buffer when it is full. */
    method Absorb(part: seq<Byte>, ghost m: seq<Byte>, ghost n: nat) returns (ghost n': nat)
      requires Absorbed(m, n) && |part| <= 64 - bufferSize
      modifies this`bufferSize, state, buffer
      ensures Absorbed(m + part, n')
    {
      Fill(part, m, n);
      n' := n;
      if bufferSize == 64 {
        Flush(m + part, n);
        n' := n + 1;
      }
    }

    method AbsorbAll(data: seq<Byte>, ghost m: seq<Byte>, ghost n: nat) returns (ghost n': nat)
      requires Absorbed(m, n)
      modifies this`bufferSize, state, buffer
      ensures Absorbed(m + data, n')
    {
      n' := n;
      var offset := 0;
      assert m + data[..0] == m;
      while offset < |data|
        invariant 0 <= offset <= |data|
        invariant Absorbed(m + data[..offset], n')
      {
        var chunk := if 64 - bufferSize < |data| - offset then 64 - bufferSize else |data| - offset;
        ghost var next := data[offset..offset + chunk];
        assert m + data[..offset + chunk] == (m + data[..offset]) + next;
        n' := Absorb(data[offset..offset + chunk], m + data[..offset], n');
        offset := offset + chunk;
      }
      assert data[..offset] == data;
    }

    method Update(data: seq<Byte>, ghost m: seq<Byte>)
      requires Valid(m)
      modifies this`bufferSize, this`totalSize, state, buffer
      ensures Valid(m + data)
    {
      ModAdd(|m|, |data|, 0x1_0000_0000_0000_0000);
      totalSize := (totalSize + |data|) % 0x1_0000_0000_0000_0000;
      AbsorbWhole(data, m);
    }

    method AbsorbWhole(data: seq<Byte>, ghost m: seq<Byte>)
      requires Absorbed(m, |m| / 64)
      modifies this`bufferSize, state, buffer
      ensures Absorbed(m + data, |m + data| / 64)
    {
      ghost var n := AbsorbAll(data, m, |m| / 64);
      DivideUnique(|m + data|, 64, n, bufferSize);
    }

    static method WriteLength(block: array<Byte>, totalSize: nat)
      requires block.Length == 64
      modifies block
      ensures block[..56] == old(block[..56])
      ensures block[56..] == BigEndian(8 * totalSize, 8)
    {
      var totalBits := (totalSize * 8) % 0x1_0000_0000_0000_0000;
      ghost var bytes := BigEndian(totalBits, 8);
      LengthWraps(totalSize);
      var i := 0;
      while i < 8
        invariant 0 <= i <= 8
        invariant forall j :: 0 <= j < 56 ==> block[j] == old(block[j])
        invariant forall j :: 64 - i <= j < 64 ==> block[j] == bytes[j - 56]
      {
        BigEndianAt(totalBits, 8, i);
        block[63 - i] := ((totalBits / Power256(i)) % 256) as Byte;
        i := i + 1;
      }
      assert block[56..] == bytes;
    }

    /** The buffer with the marker byte after the bytes that wait in it; what follows is stale. */
    method MarkEnd(ghost m: seq<Byte>, ghost n: nat) returns (block: array<Byte>)
      requires Absorbed(m, n)
      ensures fresh(block) && block.Length == 64
      ensures block[..bufferSize + 1] == m[64 * n..] + [0x80]
    {
      block := new Byte[64];
      forall i | 0 <= i < 64 {
        block[i] := buffer[i];
      }
      assert block[..bufferSize] == buffer[..bufferSize];
      block[bufferSize] := 0x80;
      assert block[..bufferSize + 1] == block[..bufferSize] + [0x80];
    }

    static method ClearRange(block: array<Byte>, from: nat, to: nat)
      requires from <= to <= block.Length
      modifies block
      ensures block[..to] == old(block[..from]) + Zeros(to - from)
    {
      forall i | from <= i < to {
        block[i] := 0;
      }
    }

    /** Hashes block `n` of the padded message `p`. */
    method HashNext(block: seq<Byte>, ghost p: seq<Byte>, ghost n: nat)
      requires state.Length == 8 && Ties(c, o)
      requires |block| == 64 && 64 * (n + 1) <= |p| && block == p[64 * n..64 * (n + 1)]
      requires AsRegs(state[..]) == HashBlocks(c, p, n)
      modifies state
      ensures AsRegs(state[..]) == HashBlocks(c, p, n + 1)
    {
      Transform(block);
    }

    /** Fills the last block with zeros and the length, and hashes it. */
    method HashLast(block: array<Byte>, size: nat, ghost p: seq<Byte>, ghost n: nat, ghost length: nat)
      requires state.Length == 8 && Ties(c, o) && block.Length == 64 && size <= 56
      requires totalSize == length % 0x1_0000_0000_0000_0000
      requires |p| == 64 * n + 64 && p[64 * n..] == block[..size] + Zeros(56 - size) + BigEndian(8 * length, 8)
      requires AsRegs(state[..]) == HashBlocks(c, p, n)
      modifies state, block
      ensures AsRegs(state[..]) == HashBlocks(c, p, n + 1)
    {
      LengthOfTotal(length);
      FinishBlock(block, size, totalSize);
      HashNext(block[..], p, n);
    }

    static method FinishBlock(block: array<Byte>, size: nat, totalSize: nat)
      requires block.Length == 64 && size <= 56
      modifies block
      ensures block[..] == old(block[..size]) + Zeros(56 - size) + BigEndian(8 * totalSize, 8)
    {
      ClearRange(block, size, 56);
      WriteLength(block, totalSize);
      assert block[..] == block[..56] + block[56..];
    }

    /** When the length does not fit: fills the block with zeros, hashes it and clears it. */
    method Spill(block: array<Byte>, size: nat, ghost p: seq<Byte>, ghost n: nat)
      requires state.Length == 8 && Ties(c, o) && block.Length == 64 && size <= 64
      requires 64 * (n + 1) <= |p| && p[64 * n..64 * (n + 1)] == block[..size] + Zeros(64 - size)
      requires AsRegs(state[..]) == HashBlocks(c, p, n)
      modifies state, block
      ensures AsRegs(state[..]) == HashBlocks(c, p, n + 1)
    {
      ClearRange(block, size, 64);
      assert block[..] == block[..64];
      HashNext(block[..], p, n);
      ClearRange(block, 0, 64);
    }

    /** Pads, hashes the last one or two blocks and prints the state. */
    method FinalHex(ghost m: seq<Byte>) returns (hex: string)
      requires Valid(m)
      modifies state
      ensures hex == Digest(c, m)
    {
      ghost var n := |m| / 64;
      var block := MarkEnd(m, n);
      HashTail(block, bufferSize + 1, m, n);
      hex := HexState();
    }

    method HashTail(block: array<Byte>, markedSize: nat, ghost m: seq<Byte>, ghost n: nat)
      requires Absorbed(m, n) && totalSize == |m| % 0x1_0000_0000_0000_0000
      requires block.Length == 64 && block != buffer && markedSize == bufferSize + 1
      requires block[..markedSize] == m[64 * n..] + [0x80]
      modifies state, block
      ensures 64 * BlockCount(|m|) == |Pad(m)| && AsRegs(state[..]) == HashBlocks(c, Pad(m), BlockCount(|m|))
    {
      PadTail(m, n, bufferSize);
      HashBlocksPrefix(c, m, Pad(m), n);
      HashEnd(block, markedSize, Pad(m), n, |m|);
    }

    /** Hashes the end of the padded message `p`: a block that has no room for the length, and the last block. */
    method HashEnd(block: array<Byte>, markedSize: nat, ghost p: seq<Byte>, ghost n: nat, ghost length: nat)
      requires state.Length == 8 && Ties(c, o) && block.Length == 64 && 1 <= markedSize <= 64
      requires totalSize == length % 0x1_0000_0000_0000_0000
      requires |p| == 64 * n + if markedSize <= 56 then 64 else 128
      requires markedSize <= 56 ==> p[64 * n..] == block[..markedSize] + Zeros(56 - markedSize) + BigEndian(8 * length, 8)
      requires markedSize > 56 ==> p[64 * n..64 * n + 64] == block[..markedSize] + Zeros(64 - markedSize)
      requires markedSize > 56 ==> p[64 * n + 64..] == Zeros(56) + BigEndian(8 * length, 8)
      requires AsRegs(state[..]) == HashBlocks(c, p, n)
      modifies state, block
      ensures AsRegs(state[..]) == HashBlocks(c, p, if markedSize <= 56 then n + 1 else n + 2)
    {
      var size := markedSize;
      ghost var done := n;
      if size > 56 {
        Spill(block, size, p, n);
        size := 0;
        done := n + 1;
        assert block[..size] + Zeros(56) == Zeros(56);
      }
      HashLast(block, size, p, done, length);
    }

    method HexState() returns (hex: string)
      requires state.Length == 8
      ensures hex == HexRegs(AsRegs(state[..]))
    {
      hex := "";
      var i := 0;
      while i < 8
        invariant 0 <= i <= 8
        invariant hex == HexFirst(state[..], i)
      {
        WordFormat(state[i]);
        hex := hex + PadLeft(ShortHex(state[i] as int), 8);
        i := i + 1;
      }
      HexFirstAll(state[..]);
    }
  }

  lemma RoundsStep(o: WordOps, v: Regs, w: seq<Word>, i: nat)
    requires i < |w|
    ensures Rounds(o, v, w[..i + 1]) == Round(o, Rounds(o, v, w[..i]), o.constant(i), w[i])
  {
    assert w[..i + 1][..i] == w[..i];
  }

  function HexFirst(words: seq<Word>, n: nat): string
    requires n <= |words|
  {
    if n == 0 then "" else HexFirst(words, n - 1) + HexWord(words[n - 1])
  }

  lemma HexFirstAll(words: seq<Word>)
    requires |words| == 8
    ensures HexFirst(words, 8) == HexRegs(AsRegs(words))
  {
    assert HexFirst(words, 1) == HexWord(words[0]);
    assert HexFirst(words, 2) == HexFirst(words, 1) + HexWord(words[1]);
    assert HexFirst(words, 3) == HexFirst(words, 2) + HexWord(words[2]);
    assert HexFirst(words, 4) == HexFirst(words, 3) + HexWord(words[3]);
    assert HexFirst(words, 5) == HexFirst(words, 4) + HexWord(words[4]);
    assert HexFirst(words, 6) == HexFirst(words, 5) + HexWord(words[5]);
    assert HexFirst(words, 7) == HexFirst(words, 6) + HexWord(words[6]);
  }

  /** The padded message after its `n` whole blocks: one block when the marker byte leaves room for
      the length, and otherwise two. */
  lemma PadTail(m: seq<Byte>, n: nat, r: nat)
    requires |m| == 64 * n + r && r < 64
    ensures |Pad(m)| == 64 * BlockCount(|m|) && m[..64 * n] == Pad(m)[..64 * n]
    ensures BlockCount(|m|) == if r <= 55 then n + 1 else n + 2
    ensures r <= 55 ==> Pad(m)[64 * n..] == (m[64 * n..] + [0x80]) + Zeros(55 - r) + BigEndian(8 * |m|, 8)
    ensures r > 55 ==> Pad(m)[64 * n..64 * n + 64] == (m[64 * n..] + [0x80]) + Zeros(63 - r)
    ensures r > 55 ==> Pad(m)[64 * n + 64..] == Zeros(56) + BigEndian(8 * |m|, 8)
  {
    DivideUnique(|m|, 64, n, r);
    PadFillsBlocks(m);
    ZeroCountValue(|m|);
    if r > 55 {
      assert Zeros(119 - r) == Zeros(63 - r) + Zeros(56);
    }
  }

  /** The counter wraps at 64 bits, and so does the length that is written. */
  lemma LengthOfTotal(length: nat)
    ensures BigEndian(8 * (length % 0x1_0000_0000_0000_0000), 8) == BigEndian(8 * length, 8)
  {
    var M := 0x1_0000_0000_0000_0000;
    var r := 8 * (length % M);
    DivideSplit(length, M);
    DivideSplit(r, M);
    assert Power256(8) == M;
    DivideUnique(8 * length, M, 8 * (length / M) + r / M, r % M);
    BigEndianWraps(r, 8);
    BigEndianWraps(8 * length, 8);
  }

  lemma LengthWraps(totalSize: nat)
    ensures BigEndian((totalSize * 8) % 0x1_0000_0000_0000_0000, 8) == BigEndian(8 * totalSize, 8)
  {
    assert Power256(8) == 0x1_0000_0000_0000_0000;
    BigEndianWraps(8 * totalSize, 8);
  }

  lemma ModAdd(a: nat, b: nat, m: nat)
    requires m > 0
    ensures (a % m + b) % m == (a + b) % m
  {
    DivideSplit(a, m);
    DivideSplit(a % m + b, m);
    var q := a / m + (a % m + b) / m;
    assert a + b == q * m + (a % m + b) % m;
    DivideUnique(a + b, m, q, (a % m + b) % m);
  }

  // ---------------------------------------------------------------- any split into updates

  function Concat(chunks: seq<seq<Byte>>): seq<Byte> {
    if chunks == [] then [] else Concat(chunks[..|chunks| - 1]) + chunks[|chunks| - 1]
  }

  /** However a message is split into updates, the digest is the one-shot digest of the whole. */
  method HashChunks(chunks: seq<seq<Byte>>) returns (hex: string)
    ensures hex == Sha256Spec.Sha256(Concat(chunks))
  {
    var digest := new Sha256();
    for i := 0 to |chunks|
      invariant digest.c == FipsCompressor() && digest.Valid(Concat(chunks[..i]))
      invariant fresh(digest) && fresh(digest.state) && fresh(digest.buffer)
    {
      assert chunks[..i + 1][..i] == chunks[..i];
      digest.Update(chunks[i], Concat(chunks[..i]));
    }
    assert chunks[..|chunks|] == chunks;
    hex := digest.FinalHex(Concat(chunks));
  }
}
