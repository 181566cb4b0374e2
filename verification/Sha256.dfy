/**
 `sha256Sync` (`packages/core/src/bytes.ts`): the in-place implementation against a recursive
 reading of sections 4.1.2, 5.1.1 and 6.2.2 of FIPS 180-4.

 JavaScript keeps each word as a number and takes every sum modulo 2^32 with `| 0`; a word is
 a `bv32` here, which is that number up to the sign of its representation.
 */
module Sha256 {
  import opened Bytes

  type Word = bv32

  // ---- FIPS 180-4 ----

  /** Section 5.1.1: the message, a one bit, the fewest zeros, the 64-bit length in bits. */
  function Pad(m: Bytes): Bytes {
    m + [0x80] + Zeros((55 - |m|) % 64) + BE(8 * |m|, 8)
  }

  /** Section 3.2: a rotation as two shifts. */
  function Rotr(x: Word, n: bv6): Word
    requires n <= 32
  {
    (x >> n) | (x << (32 - n))
  }

  function BigSigma0(x: Word): Word { Rotr(x, 2) ^ Rotr(x, 13) ^ Rotr(x, 22) }
  function BigSigma1(x: Word): Word { Rotr(x, 6) ^ Rotr(x, 11) ^ Rotr(x, 25) }
  function SmallSigma0(x: Word): Word { Rotr(x, 7) ^ Rotr(x, 18) ^ (x >> 3) }
  function SmallSigma1(x: Word): Word { Rotr(x, 17) ^ Rotr(x, 19) ^ (x >> 10) }
  function Ch(x: Word, y: Word, z: Word): Word { (x & y) ^ (!x & z) }
  function Maj(x: Word, y: Word, z: Word): Word { (x & y) ^ (x & z) ^ (y & z) }

  /** Section 4.2.2: see `RoundConstantsAreCubeRoots`. */
  function RoundConstants(): (k: seq<Word>)
    ensures |k| == 64
  {
    [0x428a2f98, 0x71374491, 0xb5c0fbcf, 0xe9b5dba5, 0x3956c25b, 0x59f111f1, 0x923f82a4, 0xab1c5ed5]
    + [0xd807aa98, 0x12835b01, 0x243185be, 0x550c7dc3, 0x72be5d74, 0x80deb1fe, 0x9bdc06a7, 0xc19bf174]
    + [0xe49b69c1, 0xefbe4786, 0x0fc19dc6, 0x240ca1cc, 0x2de92c6f, 0x4a7484aa, 0x5cb0a9dc, 0x76f988da]
    + [0x983e5152, 0xa831c66d, 0xb00327c8, 0xbf597fc7, 0xc6e00bf3, 0xd5a79147, 0x06ca6351, 0x14292967]
    + [0x27b70a85, 0x2e1b2138, 0x4d2c6dfc, 0x53380d13, 0x650a7354, 0x766a0abb, 0x81c2c92e, 0x92722c85]
    + [0xa2bfe8a1, 0xa81a664b, 0xc24b8b70, 0xc76c51a3, 0xd192e819, 0xd6990624, 0xf40e3585, 0x106aa070]
    + [0x19a4c116, 0x1e376c08, 0x2748774c, 0x34b0bcb5, 0x391c0cb3, 0x4ed8aa4a, 0x5b9cca4f, 0x682e6ff3]
    + [0x748f82ee, 0x78a5636f, 0x84c87814, 0x8cc70208, 0x90befffa, 0xa4506ceb, 0xbef9a3f7, 0xc67178f2]
  }

  datatype State = State(a: Word, b: Word, c: Word, d: Word, e: Word, f: Word, g: Word, h: Word)

  function InitialState(): State {
    State(0x6a09e667, 0xbb67ae85, 0x3c6ef372, 0xa54ff53a, 0x510e527f, 0x9b05688c, 0x1f83d9ab, 0x5be0cd19)
  }

  /** The big-endian word at byte `at`. */
  function WordAt(bs: Bytes, at: nat): Word
    requires at + 4 <= |bs|
  {
    WordInRange(bs[at..at + 4]);
    AsWord(Value(bs[at..at + 4]))
  }

  function AsWord(v: nat): Word
    requires v < 0x1_0000_0000
  {
    v as Word
  }

  lemma WordInRange(bs: Bytes)
    requires |bs| == 4
    ensures Value(bs) < 0x1_0000_0000
  {
    BEOfValue(bs);
    assert Pow256(4) == 256 * Pow256(3) && Pow256(3) == 256 * Pow256(2) && Pow256(2) == 256 * Pow256(1);
    assert Pow256(1) == 256 * Pow256(0);
  }

  /** Section 6.2.2, step 1: the message schedule of the block at byte `off`. */
  function Schedule(bs: Bytes, off: nat, t: nat): Word
    requires off + 64 <= |bs| && t < 64
    decreases t
  {
    if t < 16 then WordAt(bs, off + t * 4)
    else
      NextWord(Schedule(bs, off, t - 2), Schedule(bs, off, t - 7), Schedule(bs, off, t - 15), Schedule(bs, off, t - 16))
  }

  function NextWord(w2: Word, w7: Word, w15: Word, w16: Word): Word {
    Sum4(SmallSigma1(w2), w7, SmallSigma0(w15), w16)
  }

  /** Addition modulo 2^32: `(x + y) | 0`. */
  function Plus(x: Word, y: Word): Word { x + y }

  function Sum4(p: Word, q: Word, r: Word, s: Word): Word { p + q + r + s }

  /** Section 6.2.2, step 3. */
  function Round(s: State, k: Word, w: Word): State {
    var t1 := Plus(Sum4(s.h, BigSigma1(s.e), Ch(s.e, s.f, s.g), k), w);
    var t2 := Plus(BigSigma0(s.a), Maj(s.a, s.b, s.c));
    State(Plus(t1, t2), s.a, s.b, s.c, Plus(s.d, t1), s.e, s.f, s.g)
  }

  function Rounds(s: State, bs: Bytes, off: nat, t: nat): State
    requires off + 64 <= |bs| && t <= 64
    decreases t
  {
    if t == 0 then s
    else Round(Rounds(s, bs, off, t - 1), RoundConstants()[t - 1], Schedule(bs, off, t - 1))
  }

  /** Section 6.2.2, step 4. */
  function Add(s: State, t: State): State {
    State(Plus(s.a, t.a), Plus(s.b, t.b), Plus(s.c, t.c), Plus(s.d, t.d),
          Plus(s.e, t.e), Plus(s.f, t.f), Plus(s.g, t.g), Plus(s.h, t.h))
  }

  /** The hash value after the first `n` blocks. */
  function HashBlocks(bs: Bytes, n: nat): State
    requires 64 * n <= |bs|
    decreases n
  {
    if n == 0 then InitialState()
    else
      var s := HashBlocks(bs, n - 1);
      Add(s, Rounds(s, bs, 64 * (n - 1), 64))
  }

  /** The first `k` words, big-endian, one after the other. */
  function WordBytes(words: seq<Word>, k: nat): (bs: Bytes)
    requires k <= |words|
    ensures |bs| == 4 * k
  {
    if k == 0 then [] else WordBytes(words, k - 1) + BE(words[k - 1] as int, 4)
  }

  function Digest(s: State): (d: Bytes)
    ensures |d| == 32
  {
    WordBytes([s.a, s.b, s.c, s.d, s.e, s.f, s.g, s.h], 8)
  }

  function Hash(m: Bytes): Bytes {
    Digest(HashBlocks(Pad(m), |Pad(m)| / 64))
  }

  // ---- Constants ----

  function Primes(): (p: seq<nat>)
    ensures |p| == 64
  {
    [2, 3, 5, 7, 11, 13, 17, 19]
    + [23, 29, 31, 37, 41, 43, 47, 53]
    + [59, 61, 67, 71, 73, 79, 83, 89]
    + [97, 101, 103, 107, 109, 113, 127, 131]
    + [137, 139, 149, 151, 157, 163, 167, 173]
    + [179, 181, 191, 193, 197, 199, 211, 223]
    + [227, 229, 233, 239, 241, 251, 257, 263]
    + [269, 271, 277, 281, 283, 293, 307, 311]
  }

  /** Integer part of the cube root of a prime below 343. */
  function CubeRoot(p: nat): nat {
    if p < 8 then 1 else if p < 27 then 2 else if p < 64 then 3 else if p < 125 then 4 else if p < 216 then 5 else 6
  }

  /** `k` is the first 32 bits of the fractional part of the cube root of `p`, whose integer part is `f`. */
  predicate CubeRootBits(p: nat, f: nat, k: nat) {
    && k < 0x1_0000_0000
    && var v := f * 0x1_0000_0000 + k;
       v * v * v <= p * 0x1_0000_0000_0000_0000_0000_0000 < (v + 1) * (v + 1) * (v + 1)
  }

  predicate RootAt(t: nat)
    requires t < 64
  {
    CubeRootBits(Primes()[t], CubeRoot(Primes()[t]), RoundConstants()[t] as int)
  }

  lemma Roots0()
    ensures RootAt(0) && RootAt(1) && RootAt(2) && RootAt(3)
  {
  }

  lemma Roots4()
    ensures RootAt(4) && RootAt(5) && RootAt(6) && RootAt(7)
  {
  }

  lemma Roots8()
    ensures RootAt(8) && RootAt(9) && RootAt(10) && RootAt(11)
  {
  }

  lemma Roots12()
    ensures RootAt(12) && RootAt(13) && RootAt(14) && RootAt(15)
  {
  }

  lemma Roots16()
    ensures RootAt(16) && RootAt(17) && RootAt(18) && RootAt(19)
  {
  }

  lemma Roots20()
    ensures RootAt(20) && RootAt(21) && RootAt(22) && RootAt(23)
  {
  }

  lemma Roots24()
    ensures RootAt(24) && RootAt(25) && RootAt(26) && RootAt(27)
  {
  }

  lemma Roots28()
    ensures RootAt(28) && RootAt(29) && RootAt(30) && RootAt(31)
  {
  }

  lemma Roots32()
    ensures RootAt(32) && RootAt(33) && RootAt(34) && RootAt(35)
  {
  }

  lemma Roots36()
    ensures RootAt(36) && RootAt(37) && RootAt(38) && RootAt(39)
  {
  }

  lemma Roots40()
    ensures RootAt(40) && RootAt(41) && RootAt(42) && RootAt(43)
  {
  }

  lemma Roots44()
    ensures RootAt(44) && RootAt(45) && RootAt(46) && RootAt(47)
  {
  }

  lemma Roots48()
    ensures RootAt(48) && RootAt(49) && RootAt(50) && RootAt(51)
  {
  }

  lemma Roots52()
    ensures RootAt(52) && RootAt(53) && RootAt(54) && RootAt(55)
  {
  }

  lemma Roots56()
    ensures RootAt(56) && RootAt(57) && RootAt(58) && RootAt(59)
  {
  }

  lemma Roots60()
    ensures RootAt(60) && RootAt(61) && RootAt(62) && RootAt(63)
  {
  }

  lemma EveryRoot(t: nat)
    requires t < 64
    ensures RootAt(t)
  {
    hide RootAt, RoundConstants, Primes, CubeRoot, CubeRootBits;
    if t < 4 {
      Roots0();
    } else if t < 8 {
      Roots4();
    } else if t < 12 {
      Roots8();
    } else if t < 16 {
      Roots12();
    } else if t < 20 {
      Roots16();
    } else if t < 24 {
      Roots20();
    } else if t < 28 {
      Roots24();
    } else if t < 32 {
      Roots28();
    } else if t < 36 {
      Roots32();
    } else if t < 40 {
      Roots36();
    } else if t < 44 {
      Roots40();
    } else if t < 48 {
      Roots44();
    } else if t < 52 {
      Roots48();
    } else if t < 56 {
      Roots52();
    } else if t < 60 {
      Roots56();
    } else {
      Roots60();
    }
  }

  /** Section 4.2.2 of FIPS 180-4: the cube roots of the first sixty-four primes. */
  lemma RoundConstantsAreCubeRoots(t: nat)
    requires t < 64
    ensures CubeRootBits(Primes()[t], CubeRoot(Primes()[t]), RoundConstants()[t] as int)
  {
    hide RoundConstants, Primes, CubeRoot, CubeRootBits;
    EveryRoot(t);
  }

  /** The same for square roots and section 5.3.3. */
  predicate SquareRootBits(p: nat, f: nat, k: nat) {
    && k < 0x1_0000_0000
    && var v := f * 0x1_0000_0000 + k;
       v * v <= p * 0x1_0000_0000_0000_0000 < (v + 1) * (v + 1)
  }

  lemma InitialStateIsSquareRoots()
    ensures var s := InitialState();
            && SquareRootBits(2, 1, s.a as int) && SquareRootBits(3, 1, s.b as int)
            && SquareRootBits(5, 2, s.c as int) && SquareRootBits(7, 2, s.d as int)
            && SquareRootBits(11, 3, s.e as int) && SquareRootBits(13, 3, s.f as int)
            && SquareRootBits(17, 4, s.g as int) && SquareRootBits(19, 4, s.h as int)
  {
  }

  // ---- The logical functions of section 4.1.2, bit by bit ----

  /** Where `x` has a one the bit of `y` is taken, elsewhere that of `z`. */
  lemma ChChooses(x: Word, y: Word, z: Word)
    ensures Ch(x, y, z) & x == y & x && Ch(x, y, z) & !x == z & !x
  {
  }

  /** Two of three equal bits win. */
  lemma MajVotes(x: Word, z: Word)
    ensures Maj(x, x, z) == x && Maj(x, z, x) == x && Maj(z, x, x) == x
  {
  }

  // ---- Padding ----

  /** The padded length is the least multiple of 64 that leaves room for nine more bytes. */
  lemma PadLeast(m: Bytes)
    ensures |Pad(m)| % 64 == 0
    ensures |m| + 9 <= |Pad(m)| < |m| + 9 + 64
  {
    hide BE;
  }

  /** Section 5.1.1 read off the padded message: itself, a one bit, zeros, its length in bits. */
  lemma PadReads(m: Bytes)
    requires 8 * |m| < Pow256(8)
    ensures var p, n := Pad(m), |Pad(m)|;
            && n >= |m| + 9 && p[..|m|] == m && p[|m|] == 128
            && (forall i :: |m| < i < n - 8 ==> p[i] == 0)
            && Value(p[n - 8..]) == 8 * |m|
  {
    hide BE, Pow256, Value;
    PadLeast(m);
    var p, n := Pad(m), |Pad(m)|;
    assert p[n - 8..] == BE(8 * |m|, 8);
    BERoundTrip(8 * |m|, 8);
  }

  lemma {:induction false} SameLengthField(a: nat, b: nat)
    requires 8 * a < Pow256(8) && 8 * b < Pow256(8) && BE(8 * a, 8) == BE(8 * b, 8)
    ensures a == b
  {
    hide BE, Pow256, Value;
    BERoundTrip(8 * a, 8);
    BERoundTrip(8 * b, 8);
  }

  /** Distinct messages within the 64-bit length field have distinct padded block sequences. */
  lemma PadInjective(m: Bytes, n: Bytes)
    requires 8 * |m| < Pow256(8) && 8 * |n| < Pow256(8)
    requires Pad(m) == Pad(n)
    ensures m == n
  {
    hide BE, Pow256;
    var p, q := m + [0x80] + Zeros((55 - |m|) % 64), n + [0x80] + Zeros((55 - |n|) % 64);
    var total := |Pad(m)|;
    assert Pad(m)[total - 8..] == BE(8 * |m|, 8);
    assert Pad(n)[total - 8..] == BE(8 * |n|, 8);
    SameLengthField(|m|, |n|);
    assert Pad(m)[..|m|] == m && Pad(n)[..|m|] == n;
  }

  // ---- The implementation ----

  /** JavaScript's conversion to a signed 32-bit integer. */
  function ToInt32(x: int): int {
    (x + 0x8000_0000) % 0x1_0000_0000 - 0x8000_0000
  }

  /** `(((length + 8) >> 6) + 1) << 6`. */
  function PaddedLength(length: nat): int {
    ToInt32((ToInt32(length + 8) / 64 + 1) * 64)
  }

  /** Longest input whose padded length is still a non-negative 32-bit integer. */
  const MAX_LENGTH: nat := 0x8000_0000 - 73

  /** The 32-bit arithmetic is right exactly up to `MAX_LENGTH`; beyond it the length is negative or too short. */
  lemma PaddedLengthExact(m: Bytes)
    ensures |m| <= MAX_LENGTH ==> PaddedLength(|m|) == |Pad(m)|
    ensures |m| > MAX_LENGTH ==> PaddedLength(|m|) < |m|
    ensures |m| <= |Pad(m)|
  {
    hide BE;
    var n := |m|;
    if n <= MAX_LENGTH {
      assert ToInt32(n + 8) == n + 8;
      var blocks := (n + 8) / 64 + 1;
      assert ToInt32(blocks * 64) == blocks * 64;
      PadLeast(m);
    }
  }

  /** `DataView.setUint32`: the low 32 bits of `v`, big-endian, at `at`. */
  method SetUint32(a: array<byte>, at: nat, v: int)
    requires at + 4 <= a.Length
    modifies a
    ensures a[..] == old(a[..])[..at] + BE(v, 4) + old(a[..])[at + 4..]
  {
    var w := BE(v, 4);
    ghost var before := a[..];
    a[at], a[at + 1], a[at + 2], a[at + 3] := w[0], w[1], w[2], w[3];
    hide BE;
    assert w == [w[0], w[1], w[2], w[3]];
    assert a[..] == before[..at] + w + before[at + 4..];
  }

  /** A 64-bit field is its high word and its low word. */
  lemma TwoWords(v: int)
    ensures BE(v, 8) == BE(v / 0x1_0000_0000, 4) + BE(v, 4)
  {
    BEAppend(v, 4, 4);
    assert Pow256(4) == 0x1_0000_0000 by {
      assert Pow256(4) == 256 * Pow256(3) && Pow256(3) == 256 * Pow256(2);
      assert Pow256(2) == 256 * Pow256(1) && Pow256(1) == 256 * Pow256(0);
    }
  }

  lemma {:induction false} BEAppend(v: int, w: nat, k: nat)
    ensures BE(v, w + k) == BE(v / Pow256(k), w) + BE(v, k)
    decreases k
  {
    if k == 0 {
      assert BE(v, w) + [] == BE(v, w);
    } else {
      var h, d := v / 256, v % 256;
      BELast(v, w + k);
      BELast(v, k);
      BEAppend(h, w, k - 1);
      DivTwice(v, Pow256(k - 1));
      hide BE, Pow256;
      Pow256Step(k);
      Assoc(BE(h / Pow256(k - 1), w), BE(h, k - 1), [d]);
    }
  }

  lemma BELast(v: int, w: nat)
    requires w > 0
    ensures BE(v, w) == BE(v / 256, w - 1) + [v % 256]
  {
  }

  lemma Pow256Step(k: nat)
    requires k > 0
    ensures Pow256(k) == 256 * Pow256(k - 1)
  {
  }

  lemma DivTwice(v: int, p: nat)
    requires p > 0
    ensures v / (256 * p) == (v / 256) / p
  {
    var h := v / 256;
    var q, m := h / p, h % p;
    assert v == (256 * p) * q + (256 * m + v % 256) by {
      assert v == 256 * (p * q + m) + v % 256;
    }
    DivModUnique(v, 256 * p, q, 256 * m + v % 256);
  }

  function PadBody(data: Bytes): Bytes {
    data + [0x80] + Zeros((55 - |data|) % 64)
  }

  /** Writing the low word and then the high word over eight trailing zeros. */
  lemma LengthWords(body: Bytes, first: Bytes, second: Bytes, hi: Bytes, lo: Bytes)
    requires |hi| == 4 && |lo| == 4
    requires first == (body + Zeros(8))[..|body| + 4] + lo + []
    requires second == first[..|body|] + hi + first[|body| + 4..]
    ensures second == body + (hi + lo)
  {
    assert (body + Zeros(8))[..|body| + 4] == body + Zeros(4);
    assert first[..|body|] == body && first[|body| + 4..] == lo;
  }

  /** `padded.set(data)` and the marker byte. */
  method StartPadding(data: Bytes, paddedLen: nat) returns (padded: array<byte>)
    requires paddedLen == |Pad(data)|
    ensures fresh(padded) && padded[..] == PadBody(data) + Zeros(8)
  {
    hide BE;
    PadLeast(data);
    padded := new byte[paddedLen](i => 0);
    forall i | 0 <= i < |data| {
      padded[i] := data[i];
    }
    padded[|data|] := 0x80;
  }

  lemma PadSplit(data: Bytes)
    ensures Pad(data) == PadBody(data) + BE(8 * |data|, 8)
    ensures |Pad(data)| == |PadBody(data)| + 8
  {
    hide BE;
  }

  /** The padded buffer with the two halves of the bit length. */
  method PadBuffer(data: Bytes, paddedLen: nat) returns (padded: array<byte>)
    requires paddedLen == |Pad(data)|
    ensures fresh(padded) && padded[..] == Pad(data)
  {
    hide BE, Zeros, PadBody;
    PadLeast(data);
    PadSplit(data);
    hide Pad;
    padded := StartPadding(data, paddedLen);
    var bitLen := |data| * 8;
    ghost var body := PadBody(data);
    ghost var start := padded[..];
    assert |body| + 8 == paddedLen;
    SetUint32(padded, paddedLen - 4, bitLen);
    ghost var first := padded[..];
    assert start[paddedLen..] == [];
    SetUint32(padded, paddedLen - 8, bitLen / 0x1_0000_0000);
    LengthWords(body, first, padded[..], BE(bitLen / 0x1_0000_0000, 4), BE(bitLen, 4));
    TwoWords(bitLen);
  }

  lemma SmallSigma0Computed(x: Word)
    ensures Rotr(x, 7) ^ Rotr(x, 18) ^ (x >> 3) == SmallSigma0(x)
  {
    hide Rotr;
  }

  lemma SmallSigma1Computed(x: Word)
    ensures Rotr(x, 17) ^ Rotr(x, 19) ^ (x >> 10) == SmallSigma1(x)
  {
    hide Rotr;
  }

  lemma SumReversed(p: Word, q: Word, r: Word, s: Word)
    ensures Sum4(p, q, r, s) == Sum4(s, r, q, p)
  {
  }

  /** The body of the second schedule loop, which adds the four terms in the other order. */
  method ComputeWord(w2: Word, w7: Word, w15: Word, w16: Word) returns (next: Word)
    ensures next == NextWord(w2, w7, w15, w16)
  {
    hide Rotr, SmallSigma0, SmallSigma1, Plus, Sum4;
    var s0 := Rotr(w15, 7) ^ Rotr(w15, 18) ^ (w15 >> 3);
    var s1 := Rotr(w2, 17) ^ Rotr(w2, 19) ^ (w2 >> 10);
    SmallSigma0Computed(w15);
    SmallSigma1Computed(w2);
    SumReversed(w16, s0, w7, s1);
    return Sum4(w16, s0, w7, s1);
  }

  /** The two loops that fill `w` for the block at `off`. */
  method FillSchedule(bs: Bytes, off: nat, w: array<Word>)
    requires off + 64 <= |bs| && w.Length == 64
    modifies w
    ensures forall t :: 0 <= t < 64 ==> w[t] == Schedule(bs, off, t)
  {
    hide NextWord, WordAt;
    for i := 0 to 16
      invariant forall t :: 0 <= t < i ==> w[t] == Schedule(bs, off, t)
    {
      w[i] := WordAt(bs, off + i * 4);
    }
    for i := 16 to 64
      invariant forall t :: 0 <= t < i ==> w[t] == Schedule(bs, off, t)
    {
      var next := ComputeWord(w[i - 2], w[i - 7], w[i - 15], w[i - 16]);
      w[i] := next;
    }
  }

  lemma BigSigmasComputed(x: Word)
    ensures Rotr(x, 6) ^ Rotr(x, 11) ^ Rotr(x, 25) == BigSigma1(x)
    ensures Rotr(x, 2) ^ Rotr(x, 13) ^ Rotr(x, 22) == BigSigma0(x)
  {
    hide Rotr;
  }

  lemma ChMajComputed(x: Word, y: Word, z: Word)
    ensures (x & y) ^ (!x & z) == Ch(x, y, z)
    ensures (x & y) ^ (x & z) ^ (y & z) == Maj(x, y, z)
  {
  }

  /** The compression loop over the registers `a` to `h`. */
  method Compress(s: State, bs: Bytes, off: nat, w: array<Word>) returns (r: State)
    requires off + 64 <= |bs| && w.Length == 64
    requires forall t :: 0 <= t < 64 ==> w[t] == Schedule(bs, off, t)
    ensures r == Rounds(s, bs, off, 64)
  {
    hide Rotr, BigSigma0, BigSigma1, Ch, Maj, Plus, Sum4, Schedule, RoundConstants;
    var K := RoundConstants();
    var a, b, c, d, e, f, g, h := s.a, s.b, s.c, s.d, s.e, s.f, s.g, s.h;
    for i := 0 to 64
      invariant State(a, b, c, d, e, f, g, h) == Rounds(s, bs, off, i)
    {
      var S1 := Rotr(e, 6) ^ Rotr(e, 11) ^ Rotr(e, 25);
      var ch := (e & f) ^ (!e & g);
      var t1 := Plus(Sum4(h, S1, ch, K[i]), w[i]);
      var S0 := Rotr(a, 2) ^ Rotr(a, 13) ^ Rotr(a, 22);
      var maj := (a & b) ^ (a & c) ^ (b & c);
      var t2 := Plus(S0, maj);
      BigSigmasComputed(e);
      BigSigmasComputed(a);
      ChMajComputed(e, f, g);
      ChMajComputed(a, b, c);
      h := g;
      g := f;
      f := e;
      e := Plus(d, t1);
      d := c;
      c := b;
      b := a;
      a := Plus(t1, t2);
    }
    return State(a, b, c, d, e, f, g, h);
  }

  lemma AppendWord(before: Bytes, after: Bytes, at: nat, word: Bytes)
    requires |before| == 32 && |word| == 4 && at + 4 <= 32
    requires after == before[..at] + word + before[at + 4..]
    ensures |after| == 32 && after[..at + 4] == before[..at] + word
  {
  }

  /** The eight `setUint32` calls on the output buffer. */
  method WriteDigest(s: State) returns (digest: Bytes)
    ensures digest == Digest(s)
  {
    hide BE;
    var out := new byte[32](i => 0);
    var words := [s.a, s.b, s.c, s.d, s.e, s.f, s.g, s.h];
    var k := 0;
    while k < 8
      invariant 0 <= k <= 8
      invariant out[..4 * k] == WordBytes(words, k)
    {
      ghost var before := out[..];
      SetUint32(out, 4 * k, words[k] as int);
      AppendWord(before, out[..], 4 * k, BE(words[k] as int, 4));
      k := k + 1;
    }
    assert out[..32] == out[..];
    return out[..];
  }

  /** `sha256Sync`; `None` where allocating or filling the padded buffer throws. */
  method Sha256Sync(data: Bytes) returns (r: Option<Bytes>)
    ensures r == if |data| <= MAX_LENGTH then Some(Hash(data)) else None
  {
    hide Pad, HashBlocks, Rounds, Digest, PaddedLength, Plus;
    var h0, h1, h2, h3: Word := 0x6a09e667, 0xbb67ae85, 0x3c6ef372, 0xa54ff53a;
    var h4, h5, h6, h7: Word := 0x510e527f, 0x9b05688c, 0x1f83d9ab, 0x5be0cd19;
    PaddedLengthExact(data);
    var paddedLen := PaddedLength(|data|);
    if paddedLen < 0 || paddedLen < |data| {
      return None;
    }
    var padded := PadBuffer(data, paddedLen);
    PadLeast(data);
    var view := padded[..];
    var w := new Word[64];
    var n := 0;
    HashNone(view);
    while 64 * n < paddedLen
      invariant 0 <= 64 * n <= paddedLen
      invariant State(h0, h1, h2, h3, h4, h5, h6, h7) == HashBlocks(view, n)
    {
      FillSchedule(view, 64 * n, w);
      var t := Compress(State(h0, h1, h2, h3, h4, h5, h6, h7), view, 64 * n, w);
      HashStep(view, n);
      h0, h1, h2, h3 := Plus(h0, t.a), Plus(h1, t.b), Plus(h2, t.c), Plus(h3, t.d);
      h4, h5, h6, h7 := Plus(h4, t.e), Plus(h5, t.f), Plus(h6, t.g), Plus(h7, t.h);
      n := n + 1;
    }
    var digest := WriteDigest(State(h0, h1, h2, h3, h4, h5, h6, h7));
    return Some(digest);
  }

  lemma HashNone(bs: Bytes)
    ensures HashBlocks(bs, 0) == InitialState()
  {
  }

  lemma HashStep(bs: Bytes, n: nat)
    requires 64 * (n + 1) <= |bs|
    ensures HashBlocks(bs, n + 1) == Add(HashBlocks(bs, n), Rounds(HashBlocks(bs, n), bs, 64 * n, 64))
  {
    hide Rounds, Add, InitialState;
  }
}
