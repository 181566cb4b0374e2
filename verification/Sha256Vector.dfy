/**
 The published example of FIPS 180-4 for the one-block message "abc", worked through the
 specification of module `Sha256` eight words and eight rounds at a time.
 */
module Sha256Vector {
  import opened Bytes
  import opened Sha256

  /** The message, one byte per character. */
  function Abc(): Bytes { [97, 98, 99] }

  // ---- Eight at a time ----

  /** The schedule from `t` on starts with the eight words `w`. */
  ghost predicate Words(bs: Bytes, t: nat, w: seq<Word>) {
    |bs| == 64 && t + 8 <= 64 && |w| == 8 && forall i :: 0 <= i < 8 ==> Schedule(bs, 0, t + i) == w[i]
  }

  /** The eight words after the sixteen in `u` and `v`. */
  function NextWords(u: seq<Word>, v: seq<Word>): (w: seq<Word>)
    requires |u| == 8 && |v| == 8
    ensures |w| == 8
  {
    var w0 := NextWord(v[6], v[1], u[1], u[0]);
    var w1 := NextWord(v[7], v[2], u[2], u[1]);
    var w2 := NextWord(w0, v[3], u[3], u[2]);
    var w3 := NextWord(w1, v[4], u[4], u[3]);
    var w4 := NextWord(w2, v[5], u[5], u[4]);
    var w5 := NextWord(w3, v[6], u[6], u[5]);
    var w6 := NextWord(w4, v[7], u[7], u[6]);
    var w7 := NextWord(w5, w0, v[0], u[7]);
    [w0, w1, w2, w3, w4, w5, w6, w7]
  }

  lemma WordFollows(bs: Bytes, t: nat)
    requires |bs| == 64 && 16 <= t < 64
    ensures Schedule(bs, 0, t) == NextWord(
      Schedule(bs, 0, t - 2), Schedule(bs, 0, t - 7), Schedule(bs, 0, t - 15), Schedule(bs, 0, t - 16))
  {
    hide NextWord, WordAt;
  }

  lemma WordsAt(bs: Bytes, t: nat, w: seq<Word>)
    requires Words(bs, t, w)
    ensures Schedule(bs, 0, t) == w[0] && Schedule(bs, 0, t + 1) == w[1] && Schedule(bs, 0, t + 2) == w[2]
    ensures Schedule(bs, 0, t + 3) == w[3] && Schedule(bs, 0, t + 4) == w[4] && Schedule(bs, 0, t + 5) == w[5]
    ensures Schedule(bs, 0, t + 6) == w[6] && Schedule(bs, 0, t + 7) == w[7]
  {
    hide Schedule;
    assert Schedule(bs, 0, t + 0) == w[0];
  }

  lemma WordsFrom(bs: Bytes, t: nat, w: seq<Word>)
    requires |bs| == 64 && t + 8 <= 64 && |w| == 8
    requires Schedule(bs, 0, t) == w[0] && Schedule(bs, 0, t + 1) == w[1] && Schedule(bs, 0, t + 2) == w[2]
    requires Schedule(bs, 0, t + 3) == w[3] && Schedule(bs, 0, t + 4) == w[4] && Schedule(bs, 0, t + 5) == w[5]
    requires Schedule(bs, 0, t + 6) == w[6] && Schedule(bs, 0, t + 7) == w[7]
    ensures Words(bs, t, w)
  {
    hide Schedule;
  }

  lemma WordsFollow(bs: Bytes, t: nat, u: seq<Word>, v: seq<Word>)
    requires |bs| == 64 && |u| == |v| == 8
    requires t + 24 <= 64 && Words(bs, t, u) && Words(bs, t + 8, v)
    ensures Words(bs, t + 16, NextWords(u, v))
  {
    hide NextWord, Schedule, Words;
    WordsAt(bs, t, u);
    WordsAt(bs, t + 8, v);
    WordFollows(bs, t + 16);
    WordFollows(bs, t + 17);
    WordFollows(bs, t + 18);
    WordFollows(bs, t + 19);
    WordFollows(bs, t + 20);
    WordFollows(bs, t + 21);
    WordFollows(bs, t + 22);
    WordFollows(bs, t + 23);
    WordsFrom(bs, t + 16, NextWords(u, v));
  }

  function EightRounds(s: State, k: seq<Word>, w: seq<Word>): State
    requires |k| == 8 && |w| == 8
  {
    var s1 := Round(s, k[0], w[0]);
    var s2 := Round(s1, k[1], w[1]);
    var s3 := Round(s2, k[2], w[2]);
    var s4 := Round(s3, k[3], w[3]);
    var s5 := Round(s4, k[4], w[4]);
    var s6 := Round(s5, k[5], w[5]);
    var s7 := Round(s6, k[6], w[6]);
    Round(s7, k[7], w[7])
  }

  /** One round takes `s` to new words `a` and `e` in front of the halves of `s`, each shifted by one. */
  predicate Turns(s: State, k: Word, w: Word, a: Word, e: Word) {
    Round(s, k, w) == State(a, s.a, s.b, s.c, e, s.e, s.f, s.g)
  }

  lemma RoundFollows(s: State, bs: Bytes, t: nat, k: Word, w: Word)
    requires |bs| == 64 && t < 64 && RoundConstants()[t] == k && Schedule(bs, 0, t) == w
    ensures Rounds(s, bs, 0, t + 1) == Round(Rounds(s, bs, 0, t), k, w)
  {
    hide Schedule, RoundConstants, Round;
  }

  lemma RoundsFollow(s: State, bs: Bytes, t: nat, k: seq<Word>, w: seq<Word>)
    requires Words(bs, t, w) && RoundConstants()[t..t + 8] == k
    ensures Rounds(s, bs, 0, t + 8) == EightRounds(Rounds(s, bs, 0, t), k, w)
  {
    hide Schedule, RoundConstants, Round, Rounds;
    assert forall i :: 0 <= i < 8 ==> RoundConstants()[t + i] == k[i];
    assert Schedule(bs, 0, t + 0) == w[0];
    RoundFollows(s, bs, t, k[0], w[0]);
    RoundFollows(s, bs, t + 1, k[1], w[1]);
    RoundFollows(s, bs, t + 2, k[2], w[2]);
    RoundFollows(s, bs, t + 3, k[3], w[3]);
    RoundFollows(s, bs, t + 4, k[4], w[4]);
    RoundFollows(s, bs, t + 5, k[5], w[5]);
    RoundFollows(s, bs, t + 6, k[6], w[6]);
    RoundFollows(s, bs, t + 7, k[7], w[7]);
  }

  // ---- The padded message ----

  lemma ValueSnoc(bs: Bytes, d: byte)
    ensures Value(bs + [d]) == Value(bs) * 256 + d
  {
    assert (bs + [d])[..|bs|] == bs;
  }

  lemma FourBytes(a: byte, b: byte, c: byte, d: byte)
    ensures Value([a, b, c, d]) == ((a * 256 + b) * 256 + c) * 256 + d
  {
    hide Value;
    EmptyValue();
    ValueSnoc([], a);
    ValueSnoc([a], b);
    ValueSnoc([a, b], c);
    ValueSnoc([a, b, c], d);
    assert [] + [a] == [a] && [a] + [b] == [a, b] && [a, b] + [c] == [a, b, c] && [a, b, c] + [d] == [a, b, c, d];
  }

  lemma EmptyValue()
    ensures Value([]) == 0
  {
  }

  lemma FirstWord(bs: Bytes)
    requires |bs| == 64 && bs[0..4] == [97, 98, 99, 128]
    ensures WordAt(bs, 0) == 0x61626380
  {
    assert (0x61626380 as int) as Word == 0x61626380;
    hide Value, AsWord;
    FourBytes(97, 98, 99, 128);
    MessageWord();
  }

  lemma MessageWord()
    ensures AsWord(0x61626380) == 0x61626380
  {
    assert (0x61626380 as int) as Word == 0x61626380;
  }

  lemma LengthWord(bs: Bytes)
    requires |bs| == 64 && bs[60..64] == [0, 0, 0, 24]
    ensures WordAt(bs, 60) == 0x18
  {
    hide Value;
    FourBytes(0, 0, 0, 24);
  }

  lemma ZeroWordAt(bs: Bytes, at: nat)
    requires at + 4 <= |bs| && bs[at..at + 4] == [0, 0, 0, 0]
    ensures WordAt(bs, at) == 0
  {
    hide Value;
    FourBytes(0, 0, 0, 0);
  }

  /** The padded message: three bytes, a one bit, zeros and the length 24. */
  lemma PaddedAbc()
    ensures Pad(Abc()) == [97, 98, 99, 128] + Zeros(59) + [24]
  {
    hide BE;
    BEWiden(24, 1, 8);
    LowByte();
    assert Pad(Abc()) == [97, 98, 99] + [128] + Zeros(52) + (Zeros(7) + [24]);
  }

  lemma LowByte()
    ensures BE(24, 1) == [24] && 24 < Pow256(1)
  {
    assert BE(0, 0) == [] && Pow256(1) == 256 * Pow256(0);
  }

  // ---- The words and the states every eight rounds ----

  function Row0(): seq<Word> {
    [0x61626380, 0x00000000, 0x00000000, 0x00000000, 0x00000000, 0x00000000, 0x00000000, 0x00000000]
  }

  function Row8(): seq<Word> {
    [0x00000000, 0x00000000, 0x00000000, 0x00000000, 0x00000000, 0x00000000, 0x00000000, 0x00000018]
  }

  function Row16(): seq<Word> {
    [0x61626380, 0x000f0000, 0x7da86405, 0x600003c6, 0x3e9d7b78, 0x0183fc00, 0x12dcbfdb, 0xe2e2c38e]
  }

  function Row24(): seq<Word> {
    [0xc8215c1a, 0xb73679a2, 0xe5bc3909, 0x32663c5b, 0x9d209d67, 0xec8726cb, 0x702138a4, 0xd3b7973b]
  }

  function Row32(): seq<Word> {
    [0x93f5997f, 0x3b68ba73, 0xaff4ffc1, 0xf10a5c62, 0x0a8b3996, 0x72af830a, 0x9409e33e, 0x24641522]
  }

  function Row40(): seq<Word> {
    [0x9f47bf94, 0xf0a64f5a, 0x3e246a79, 0x27333ba3, 0x0c4763f2, 0x840abf27, 0x7a290d5d, 0x065c43da]
  }

  function Row48(): seq<Word> {
    [0xfb3e89cb, 0xcc7617db, 0xb9e66c34, 0xa9993667, 0x84badedd, 0xc21462bc, 0x1487472c, 0xb20f7a99]
  }

  function Row56(): seq<Word> {
    [0xef57b9cd, 0xebe6b238, 0x9fe3095e, 0x78bc8d4b, 0xa43fcf15, 0x668b2ff8, 0xeeaba2cc, 0x12b1edeb]
  }

  function State0(): State {
    State(0x6a09e667, 0xbb67ae85, 0x3c6ef372, 0xa54ff53a, 0x510e527f, 0x9b05688c, 0x1f83d9ab, 0x5be0cd19)
  }

  function State8(): State {
    State(0x85a07b5f, 0xe5030380, 0x2b4209f5, 0x04409a6a, 0x0c657a79, 0x9b27a401, 0x714260ad, 0x43ada245)
  }

  function State16(): State {
    State(0xb0fa238e, 0xc0645fde, 0xd932eb16, 0x87912990, 0x07590dcd, 0x0b92f20c, 0x745a48de, 0x1e578218)
  }

  function State24(): State {
    State(0xc5d53d8d, 0xa7a3623f, 0xc2606d6d, 0x9dc68b63, 0xaa47c347, 0x49f5114a, 0xe1257970, 0x8ada8930)
  }

  function State32(): State {
    State(0x73b33bf5, 0xea992a22, 0xa0060b30, 0x363482c9, 0xba591112, 0x0109ab3a, 0xade79437, 0x6112a3b7)
  }

  function State40(): State {
    State(0x79ea687a, 0x6dc57a8a, 0x34df1604, 0x41a65cb1, 0x1efbc0a0, 0xf0781bc8, 0xa507a53d, 0x0772a26b)
  }

  function State48(): State {
    State(0x4172328d, 0xa14c14b0, 0x72ab4b91, 0x26628815, 0xfecf0bc6, 0xd57b94a9, 0xb7755da1, 0xa80f11f0)
  }

  function State56(): State {
    State(0x38cc9913, 0x3ec45cdb, 0xf5702fdb, 0x101fd28f, 0x54cb266b, 0xe50e1b4f, 0x9f4787c3, 0x529e7d00)
  }

  function State64(): State {
    State(0x506e3058, 0xd39a2165, 0x04d24d6c, 0xb85e2ce9, 0x5ef50f24, 0xfb121210, 0x948d25b6, 0x961f4894)
  }

  lemma FirstWords(bs: Bytes)
    requires bs == [97, 98, 99, 128] + Zeros(59) + [24]
    ensures Words(bs, 0, Row0()) && Words(bs, 8, Row8())
  {
    hide WordAt;
    assert bs[0..4] == [97, 98, 99, 128] && bs[60..64] == [0, 0, 0, 24];
    FirstWord(bs);
    LengthWord(bs);
    forall t | 1 <= t < 15
      ensures WordAt(bs, t * 4) == 0
    {
      assert bs[t * 4..t * 4 + 4] == [0, 0, 0, 0];
      ZeroWordAt(bs, t * 4);
    }
  }

  lemma Next16()
    ensures NextWords(Row0(), Row8()) == Row16()
  {
  }

  lemma Next24()
    ensures NextWords(Row8(), Row16()) == Row24()
  {
  }

  lemma Next32()
    ensures NextWords(Row16(), Row24()) == Row32()
  {
  }

  lemma Next40()
    ensures NextWords(Row24(), Row32()) == Row40()
  {
  }

  lemma Next48()
    ensures NextWords(Row32(), Row40()) == Row48()
  {
  }

  lemma Next56()
    ensures NextWords(Row40(), Row48()) == Row56()
  {
  }

  function Keys0(): seq<Word> {
    [0x428a2f98, 0x71374491, 0xb5c0fbcf, 0xe9b5dba5, 0x3956c25b, 0x59f111f1, 0x923f82a4, 0xab1c5ed5]
  }

  lemma Constants0()
    ensures RoundConstants()[0..8] == Keys0()
  {
  }

  lemma Turns0()
    ensures Turns(
      State(0x6a09e667, 0xbb67ae85, 0x3c6ef372, 0xa54ff53a, 0x510e527f, 0x9b05688c, 0x1f83d9ab, 0x5be0cd19),
      0x428a2f98, 0x61626380, 0x5d6aebcd, 0xfa2a4622)
    ensures Turns(
      State(0x5d6aebcd, 0x6a09e667, 0xbb67ae85, 0x3c6ef372, 0xfa2a4622, 0x510e527f, 0x9b05688c, 0x1f83d9ab),
      0x71374491, 0x00000000, 0x5a6ad9ad, 0x78ce7989)
    ensures Turns(
      State(0x5a6ad9ad, 0x5d6aebcd, 0x6a09e667, 0xbb67ae85, 0x78ce7989, 0xfa2a4622, 0x510e527f, 0x9b05688c),
      0xb5c0fbcf, 0x00000000, 0xc8c347a7, 0xf92939eb)
    ensures Turns(
      State(0xc8c347a7, 0x5a6ad9ad, 0x5d6aebcd, 0x6a09e667, 0xf92939eb, 0x78ce7989, 0xfa2a4622, 0x510e527f),
      0xe9b5dba5, 0x00000000, 0xd550f666, 0x24e00850)
    ensures Turns(
      State(0xd550f666, 0xc8c347a7, 0x5a6ad9ad, 0x5d6aebcd, 0x24e00850, 0xf92939eb, 0x78ce7989, 0xfa2a4622),
      0x3956c25b, 0x00000000, 0x04409a6a, 0x43ada245)
    ensures Turns(
      State(0x04409a6a, 0xd550f666, 0xc8c347a7, 0x5a6ad9ad, 0x43ada245, 0x24e00850, 0xf92939eb, 0x78ce7989),
      0x59f111f1, 0x00000000, 0x2b4209f5, 0x714260ad)
    ensures Turns(
      State(0x2b4209f5, 0x04409a6a, 0xd550f666, 0xc8c347a7, 0x714260ad, 0x43ada245, 0x24e00850, 0xf92939eb),
      0x923f82a4, 0x00000000, 0xe5030380, 0x9b27a401)
    ensures Turns(
      State(0xe5030380, 0x2b4209f5, 0x04409a6a, 0xd550f666, 0x9b27a401, 0x714260ad, 0x43ada245, 0x24e00850),
      0xab1c5ed5, 0x00000000, 0x85a07b5f, 0x0c657a79)
  {
  }

  lemma After0()
    ensures EightRounds(State0(), Keys0(), Row0()) == State8()
  {
    hide Round;
    Turns0();
  }

  function Keys8(): seq<Word> {
    [0xd807aa98, 0x12835b01, 0x243185be, 0x550c7dc3, 0x72be5d74, 0x80deb1fe, 0x9bdc06a7, 0xc19bf174]
  }

  lemma Constants8()
    ensures RoundConstants()[8..16] == Keys8()
  {
  }

  lemma Turns8()
    ensures Turns(
      State(0x85a07b5f, 0xe5030380, 0x2b4209f5, 0x04409a6a, 0x0c657a79, 0x9b27a401, 0x714260ad, 0x43ada245),
      0xd807aa98, 0x00000000, 0x8e04ecb9, 0x32ca2d8c)
    ensures Turns(
      State(0x8e04ecb9, 0x85a07b5f, 0xe5030380, 0x2b4209f5, 0x32ca2d8c, 0x0c657a79, 0x9b27a401, 0x714260ad),
      0x12835b01, 0x00000000, 0x8c87346b, 0x1cc92596)
    ensures Turns(
      State(0x8c87346b, 0x8e04ecb9, 0x85a07b5f, 0xe5030380, 0x1cc92596, 0x32ca2d8c, 0x0c657a79, 0x9b27a401),
      0x243185be, 0x00000000, 0x4798a3f4, 0x436b23e8)
    ensures Turns(
      State(0x4798a3f4, 0x8c87346b, 0x8e04ecb9, 0x85a07b5f, 0x436b23e8, 0x1cc92596, 0x32ca2d8c, 0x0c657a79),
      0x550c7dc3, 0x00000000, 0xf71fc5a9, 0x816fd6e9)
    ensures Turns(
      State(0xf71fc5a9, 0x4798a3f4, 0x8c87346b, 0x8e04ecb9, 0x816fd6e9, 0x436b23e8, 0x1cc92596, 0x32ca2d8c),
      0x72be5d74, 0x00000000, 0x87912990, 0x1e578218)
    ensures Turns(
      State(0x87912990, 0xf71fc5a9, 0x4798a3f4, 0x8c87346b, 0x1e578218, 0x816fd6e9, 0x436b23e8, 0x1cc92596),
      0x80deb1fe, 0x00000000, 0xd932eb16, 0x745a48de)
    ensures Turns(
      State(0xd932eb16, 0x87912990, 0xf71fc5a9, 0x4798a3f4, 0x745a48de, 0x1e578218, 0x816fd6e9, 0x436b23e8),
      0x9bdc06a7, 0x00000000, 0xc0645fde, 0x0b92f20c)
    ensures Turns(
      State(0xc0645fde, 0xd932eb16, 0x87912990, 0xf71fc5a9, 0x0b92f20c, 0x745a48de, 0x1e578218, 0x816fd6e9),
      0xc19bf174, 0x00000018, 0xb0fa238e, 0x07590dcd)
  {
  }

  lemma After8()
    ensures EightRounds(State8(), Keys8(), Row8()) == State16()
  {
    hide Round;
    Turns8();
  }

  function Keys16(): seq<Word> {
    [0xe49b69c1, 0xefbe4786, 0x0fc19dc6, 0x240ca1cc, 0x2de92c6f, 0x4a7484aa, 0x5cb0a9dc, 0x76f988da]
  }

  lemma Constants16()
    ensures RoundConstants()[16..24] == Keys16()
  {
  }

  lemma Turns16()
    ensures Turns(
      State(0xb0fa238e, 0xc0645fde, 0xd932eb16, 0x87912990, 0x07590dcd, 0x0b92f20c, 0x745a48de, 0x1e578218),
      0xe49b69c1, 0x61626380, 0x21da9a9b, 0x8034229c)
    ensures Turns(
      State(0x21da9a9b, 0xb0fa238e, 0xc0645fde, 0xd932eb16, 0x8034229c, 0x07590dcd, 0x0b92f20c, 0x745a48de),
      0xefbe4786, 0x000f0000, 0xc2fbd9d1, 0x846ee454)
    ensures Turns(
      State(0xc2fbd9d1, 0x21da9a9b, 0xb0fa238e, 0xc0645fde, 0x846ee454, 0x8034229c, 0x07590dcd, 0x0b92f20c),
      0x0fc19dc6, 0x7da86405, 0xfe777bbf, 0xcc899961)
    ensures Turns(
      State(0xfe777bbf, 0xc2fbd9d1, 0x21da9a9b, 0xb0fa238e, 0xcc899961, 0x846ee454, 0x8034229c, 0x07590dcd),
      0x240ca1cc, 0x600003c6, 0xe1f20c33, 0xb0638179)
    ensures Turns(
      State(0xe1f20c33, 0xfe777bbf, 0xc2fbd9d1, 0x21da9a9b, 0xb0638179, 0xcc899961, 0x846ee454, 0x8034229c),
      0x2de92c6f, 0x3e9d7b78, 0x9dc68b63, 0x8ada8930)
    ensures Turns(
      State(0x9dc68b63, 0xe1f20c33, 0xfe777bbf, 0xc2fbd9d1, 0x8ada8930, 0xb0638179, 0xcc899961, 0x846ee454),
      0x4a7484aa, 0x0183fc00, 0xc2606d6d, 0xe1257970)
    ensures Turns(
      State(0xc2606d6d, 0x9dc68b63, 0xe1f20c33, 0xfe777bbf, 0xe1257970, 0x8ada8930, 0xb0638179, 0xcc899961),
      0x5cb0a9dc, 0x12dcbfdb, 0xa7a3623f, 0x49f5114a)
    ensures Turns(
      State(0xa7a3623f, 0xc2606d6d, 0x9dc68b63, 0xe1f20c33, 0x49f5114a, 0xe1257970, 0x8ada8930, 0xb0638179),
      0x76f988da, 0xe2e2c38e, 0xc5d53d8d, 0xaa47c347)
  {
  }

  lemma After16()
    ensures EightRounds(State16(), Keys16(), Row16()) == State24()
  {
    hide Round;
    Turns16();
  }

  function Keys24(): seq<Word> {
    [0x983e5152, 0xa831c66d, 0xb00327c8, 0xbf597fc7, 0xc6e00bf3, 0xd5a79147, 0x06ca6351, 0x14292967]
  }

  lemma Constants24()
    ensures RoundConstants()[24..32] == Keys24()
  {
  }

  lemma Turns24()
    ensures Turns(
      State(0xc5d53d8d, 0xa7a3623f, 0xc2606d6d, 0x9dc68b63, 0xaa47c347, 0x49f5114a, 0xe1257970, 0x8ada8930),
      0x983e5152, 0xc8215c1a, 0x1c2c2838, 0x2823ef91)
    ensures Turns(
      State(0x1c2c2838, 0xc5d53d8d, 0xa7a3623f, 0xc2606d6d, 0x2823ef91, 0xaa47c347, 0x49f5114a, 0xe1257970),
      0xa831c66d, 0xb73679a2, 0xcde8037d, 0x14383d8e)
    ensures Turns(
      State(0xcde8037d, 0x1c2c2838, 0xc5d53d8d, 0xa7a3623f, 0x14383d8e, 0x2823ef91, 0xaa47c347, 0x49f5114a),
      0xb00327c8, 0xe5bc3909, 0xb62ec4bc, 0xc74c6516)
    ensures Turns(
      State(0xb62ec4bc, 0xcde8037d, 0x1c2c2838, 0xc5d53d8d, 0xc74c6516, 0x14383d8e, 0x2823ef91, 0xaa47c347),
      0xbf597fc7, 0x32663c5b, 0x77d37528, 0xedffbff8)
    ensures Turns(
      State(0x77d37528, 0xb62ec4bc, 0xcde8037d, 0x1c2c2838, 0xedffbff8, 0xc74c6516, 0x14383d8e, 0x2823ef91),
      0xc6e00bf3, 0x9d209d67, 0x363482c9, 0x6112a3b7)
    ensures Turns(
      State(0x363482c9, 0x77d37528, 0xb62ec4bc, 0xcde8037d, 0x6112a3b7, 0xedffbff8, 0xc74c6516, 0x14383d8e),
      0xd5a79147, 0xec8726cb, 0xa0060b30, 0xade79437)
    ensures Turns(
      State(0xa0060b30, 0x363482c9, 0x77d37528, 0xb62ec4bc, 0xade79437, 0x6112a3b7, 0xedffbff8, 0xc74c6516),
      0x06ca6351, 0x702138a4, 0xea992a22, 0x0109ab3a)
    ensures Turns(
      State(0xea992a22, 0xa0060b30, 0x363482c9, 0x77d37528, 0x0109ab3a, 0xade79437, 0x6112a3b7, 0xedffbff8),
      0x14292967, 0xd3b7973b, 0x73b33bf5, 0xba591112)
  {
  }

  lemma After24()
    ensures EightRounds(State24(), Keys24(), Row24()) == State32()
  {
    hide Round;
    Turns24();
  }

  function Keys32(): seq<Word> {
    [0x27b70a85, 0x2e1b2138, 0x4d2c6dfc, 0x53380d13, 0x650a7354, 0x766a0abb, 0x81c2c92e, 0x92722c85]
  }

  lemma Constants32()
    ensures RoundConstants()[32..40] == Keys32()
  {
  }

  lemma Turns32()
    ensures Turns(
      State(0x73b33bf5, 0xea992a22, 0xa0060b30, 0x363482c9, 0xba591112, 0x0109ab3a, 0xade79437, 0x6112a3b7),
      0x27b70a85, 0x93f5997f, 0x98e12507, 0x9cd9f5f6)
    ensures Turns(
      State(0x98e12507, 0x73b33bf5, 0xea992a22, 0xa0060b30, 0x9cd9f5f6, 0xba591112, 0x0109ab3a, 0xade79437),
      0x2e1b2138, 0x3b68ba73, 0xfe604df5, 0x59249dd3)
    ensures Turns(
      State(0xfe604df5, 0x98e12507, 0x73b33bf5, 0xea992a22, 0x59249dd3, 0x9cd9f5f6, 0xba591112, 0x0109ab3a),
      0x4d2c6dfc, 0xaff4ffc1, 0xa9a7738c, 0x085f3833)
    ensures Turns(
      State(0xa9a7738c, 0xfe604df5, 0x98e12507, 0x73b33bf5, 0x085f3833, 0x59249dd3, 0x9cd9f5f6, 0xba591112),
      0x53380d13, 0xf10a5c62, 0x65a0cfe4, 0xf4b002d6)
    ensures Turns(
      State(0x65a0cfe4, 0xa9a7738c, 0xfe604df5, 0x98e12507, 0xf4b002d6, 0x085f3833, 0x59249dd3, 0x9cd9f5f6),
      0x650a7354, 0x0a8b3996, 0x41a65cb1, 0x0772a26b)
    ensures Turns(
      State(0x41a65cb1, 0x65a0cfe4, 0xa9a7738c, 0xfe604df5, 0x0772a26b, 0xf4b002d6, 0x085f3833, 0x59249dd3),
      0x766a0abb, 0x72af830a, 0x34df1604, 0xa507a53d)
    ensures Turns(
      State(0x34df1604, 0x41a65cb1, 0x65a0cfe4, 0xa9a7738c, 0xa507a53d, 0x0772a26b, 0xf4b002d6, 0x085f3833),
      0x81c2c92e, 0x9409e33e, 0x6dc57a8a, 0xf0781bc8)
    ensures Turns(
      State(0x6dc57a8a, 0x34df1604, 0x41a65cb1, 0x65a0cfe4, 0xf0781bc8, 0xa507a53d, 0x0772a26b, 0xf4b002d6),
      0x92722c85, 0x24641522, 0x79ea687a, 0x1efbc0a0)
  {
  }

  lemma After32()
    ensures EightRounds(State32(), Keys32(), Row32()) == State40()
  {
    hide Round;
    Turns32();
  }

  function Keys40(): seq<Word> {
    [0xa2bfe8a1, 0xa81a664b, 0xc24b8b70, 0xc76c51a3, 0xd192e819, 0xd6990624, 0xf40e3585, 0x106aa070]
  }

  lemma Constants40()
    ensures RoundConstants()[40..48] == Keys40()
  {
  }

  lemma Turns40()
    ensures Turns(
      State(0x79ea687a, 0x6dc57a8a, 0x34df1604, 0x41a65cb1, 0x1efbc0a0, 0xf0781bc8, 0xa507a53d, 0x0772a26b),
      0xa2bfe8a1, 0x9f47bf94, 0xd6670766, 0x26352d63)
    ensures Turns(
      State(0xd6670766, 0x79ea687a, 0x6dc57a8a, 0x34df1604, 0x26352d63, 0x1efbc0a0, 0xf0781bc8, 0xa507a53d),
      0xa81a664b, 0xf0a64f5a, 0xdf46652f, 0x838b2711)
    ensures Turns(
      State(0xdf46652f, 0xd6670766, 0x79ea687a, 0x6dc57a8a, 0x838b2711, 0x26352d63, 0x1efbc0a0, 0xf0781bc8),
      0xc24b8b70, 0x3e246a79, 0x17aa0dfe, 0xdecd4715)
    ensures Turns(
      State(0x17aa0dfe, 0xdf46652f, 0xd6670766, 0x79ea687a, 0xdecd4715, 0x838b2711, 0x26352d63, 0x1efbc0a0),
      0xc76c51a3, 0x27333ba3, 0x9d4baf93, 0xfda24c2e)
    ensures Turns(
      State(0x9d4baf93, 0x17aa0dfe, 0xdf46652f, 0xd6670766, 0xfda24c2e, 0xdecd4715, 0x838b2711, 0x26352d63),
      0xd192e819, 0x0c4763f2, 0x26628815, 0xa80f11f0)
    ensures Turns(
      State(0x26628815, 0x9d4baf93, 0x17aa0dfe, 0xdf46652f, 0xa80f11f0, 0xfda24c2e, 0xdecd4715, 0x838b2711),
      0xd6990624, 0x840abf27, 0x72ab4b91, 0xb7755da1)
    ensures Turns(
      State(0x72ab4b91, 0x26628815, 0x9d4baf93, 0x17aa0dfe, 0xb7755da1, 0xa80f11f0, 0xfda24c2e, 0xdecd4715),
      0xf40e3585, 0x7a290d5d, 0xa14c14b0, 0xd57b94a9)
    ensures Turns(
      State(0xa14c14b0, 0x72ab4b91, 0x26628815, 0x9d4baf93, 0xd57b94a9, 0xb7755da1, 0xa80f11f0, 0xfda24c2e),
      0x106aa070, 0x065c43da, 0x4172328d, 0xfecf0bc6)
  {
  }

  lemma After40()
    ensures EightRounds(State40(), Keys40(), Row40()) == State48()
  {
    hide Round;
    Turns40();
  }

  function Keys48(): seq<Word> {
    [0x19a4c116, 0x1e376c08, 0x2748774c, 0x34b0bcb5, 0x391c0cb3, 0x4ed8aa4a, 0x5b9cca4f, 0x682e6ff3]
  }

  lemma Constants48()
    ensures RoundConstants()[48..56] == Keys48()
  {
  }

  lemma Turns48()
    ensures Turns(
      State(0x4172328d, 0xa14c14b0, 0x72ab4b91, 0x26628815, 0xfecf0bc6, 0xd57b94a9, 0xb7755da1, 0xa80f11f0),
      0x19a4c116, 0xfb3e89cb, 0x05757ceb, 0xbd714038)
    ensures Turns(
      State(0x05757ceb, 0x4172328d, 0xa14c14b0, 0x72ab4b91, 0xbd714038, 0xfecf0bc6, 0xd57b94a9, 0xb7755da1),
      0x1e376c08, 0xcc7617db, 0xf11bfaa8, 0x6e5c390c)
    ensures Turns(
      State(0xf11bfaa8, 0x05757ceb, 0x4172328d, 0xa14c14b0, 0x6e5c390c, 0xbd714038, 0xfecf0bc6, 0xd57b94a9),
      0x2748774c, 0xb9e66c34, 0x7a0508a1, 0x52f1ccf7)
    ensures Turns(
      State(0x7a0508a1, 0xf11bfaa8, 0x05757ceb, 0x4172328d, 0x52f1ccf7, 0x6e5c390c, 0xbd714038, 0xfecf0bc6),
      0x34b0bcb5, 0xa9993667, 0x886e7a22, 0x49231c1e)
    ensures Turns(
      State(0x886e7a22, 0x7a0508a1, 0xf11bfaa8, 0x05757ceb, 0x49231c1e, 0x52f1ccf7, 0x6e5c390c, 0xbd714038),
      0x391c0cb3, 0x84badedd, 0x101fd28f, 0x529e7d00)
    ensures Turns(
      State(0x101fd28f, 0x886e7a22, 0x7a0508a1, 0xf11bfaa8, 0x529e7d00, 0x49231c1e, 0x52f1ccf7, 0x6e5c390c),
      0x4ed8aa4a, 0xc21462bc, 0xf5702fdb, 0x9f4787c3)
    ensures Turns(
      State(0xf5702fdb, 0x101fd28f, 0x886e7a22, 0x7a0508a1, 0x9f4787c3, 0x529e7d00, 0x49231c1e, 0x52f1ccf7),
      0x5b9cca4f, 0x1487472c, 0x3ec45cdb, 0xe50e1b4f)
    ensures Turns(
      State(0x3ec45cdb, 0xf5702fdb, 0x101fd28f, 0x886e7a22, 0xe50e1b4f, 0x9f4787c3, 0x529e7d00, 0x49231c1e),
      0x682e6ff3, 0xb20f7a99, 0x38cc9913, 0x54cb266b)
  {
  }

  lemma After48()
    ensures EightRounds(State48(), Keys48(), Row48()) == State56()
  {
    hide Round;
    Turns48();
  }

  function Keys56(): seq<Word> {
    [0x748f82ee, 0x78a5636f, 0x84c87814, 0x8cc70208, 0x90befffa, 0xa4506ceb, 0xbef9a3f7, 0xc67178f2]
  }

  lemma Constants56()
    ensures RoundConstants()[56..64] == Keys56()
  {
  }

  lemma Turns56()
    ensures Turns(
      State(0x38cc9913, 0x3ec45cdb, 0xf5702fdb, 0x101fd28f, 0x54cb266b, 0xe50e1b4f, 0x9f4787c3, 0x529e7d00),
      0x748f82ee, 0xef57b9cd, 0xfcd1887b, 0x9b5e906c)
    ensures Turns(
      State(0xfcd1887b, 0x38cc9913, 0x3ec45cdb, 0xf5702fdb, 0x9b5e906c, 0x54cb266b, 0xe50e1b4f, 0x9f4787c3),
      0x78a5636f, 0xebe6b238, 0xc062d46f, 0x7e44008e)
    ensures Turns(
      State(0xc062d46f, 0xfcd1887b, 0x38cc9913, 0x3ec45cdb, 0x7e44008e, 0x9b5e906c, 0x54cb266b, 0xe50e1b4f),
      0x84c87814, 0x9fe3095e, 0xffb70472, 0x6d83bfc6)
    ensures Turns(
      State(0xffb70472, 0xc062d46f, 0xfcd1887b, 0x38cc9913, 0x6d83bfc6, 0x7e44008e, 0x9b5e906c, 0x54cb266b),
      0x8cc70208, 0x78bc8d4b, 0xb6ae8fff, 0xb21bad3d)
    ensures Turns(
      State(0xb6ae8fff, 0xffb70472, 0xc062d46f, 0xfcd1887b, 0xb21bad3d, 0x6d83bfc6, 0x7e44008e, 0x9b5e906c),
      0x90befffa, 0xa43fcf15, 0xb85e2ce9, 0x961f4894)
    ensures Turns(
      State(0xb85e2ce9, 0xb6ae8fff, 0xffb70472, 0xc062d46f, 0x961f4894, 0xb21bad3d, 0x6d83bfc6, 0x7e44008e),
      0xa4506ceb, 0x668b2ff8, 0x04d24d6c, 0x948d25b6)
    ensures Turns(
      State(0x04d24d6c, 0xb85e2ce9, 0xb6ae8fff, 0xffb70472, 0x948d25b6, 0x961f4894, 0xb21bad3d, 0x6d83bfc6),
      0xbef9a3f7, 0xeeaba2cc, 0xd39a2165, 0xfb121210)
    ensures Turns(
      State(0xd39a2165, 0x04d24d6c, 0xb85e2ce9, 0xb6ae8fff, 0xfb121210, 0x948d25b6, 0x961f4894, 0xb21bad3d),
      0xc67178f2, 0x12b1edeb, 0x506e3058, 0x5ef50f24)
  {
  }

  lemma After56()
    ensures EightRounds(State56(), Keys56(), Row56()) == State64()
  {
    hide Round;
    Turns56();
  }

  lemma Scheduled(bs: Bytes)
    requires bs == [97, 98, 99, 128] + Zeros(59) + [24]
    ensures Words(bs, 0, Row0()) && Words(bs, 8, Row8()) && Words(bs, 16, Row16()) && Words(bs, 24, Row24())
    ensures Words(bs, 32, Row32()) && Words(bs, 40, Row40()) && Words(bs, 48, Row48()) && Words(bs, 56, Row56())
  {
    hide Words, NextWords;
    FirstWords(bs);
    WordsFollow(bs, 0, Row0(), Row8());
    Next16();
    WordsFollow(bs, 8, Row8(), Row16());
    Next24();
    WordsFollow(bs, 16, Row16(), Row24());
    Next32();
    WordsFollow(bs, 24, Row24(), Row32());
    Next40();
    WordsFollow(bs, 32, Row32(), Row40());
    Next48();
    WordsFollow(bs, 40, Row40(), Row48());
    Next56();
  }

  lemma FirstHalf(bs: Bytes)
    requires bs == [97, 98, 99, 128] + Zeros(59) + [24]
    ensures Rounds(InitialState(), bs, 0, 32) == State32()
  {
    hide Rounds, Words, EightRounds, RoundConstants;
    hide Row0, Row8, Row16, Row24, Row32, Row40, Row48, Row56;
    hide State0, State8, State16, State24, State32, State40, State48, State56, State64;
    hide Keys0, Keys8, Keys16, Keys24, Keys32, Keys40, Keys48, Keys56;
    Scheduled(bs);
    var s := InitialState();
    Start(bs);
    Constants0();
    After0();
    RoundsFollow(s, bs, 0, Keys0(), Row0());
    Constants8();
    After8();
    RoundsFollow(s, bs, 8, Keys8(), Row8());
    Constants16();
    After16();
    RoundsFollow(s, bs, 16, Keys16(), Row16());
    Constants24();
    After24();
    RoundsFollow(s, bs, 24, Keys24(), Row24());
  }

  lemma SecondHalf(bs: Bytes)
    requires bs == [97, 98, 99, 128] + Zeros(59) + [24]
    requires Rounds(InitialState(), bs, 0, 32) == State32()
    ensures Rounds(InitialState(), bs, 0, 64) == State64()
  {
    hide Rounds, Words, EightRounds, RoundConstants;
    hide Row0, Row8, Row16, Row24, Row32, Row40, Row48, Row56;
    hide State0, State8, State16, State24, State32, State40, State48, State56, State64;
    hide Keys0, Keys8, Keys16, Keys24, Keys32, Keys40, Keys48, Keys56;
    Scheduled(bs);
    var s := InitialState();
    Constants32();
    After32();
    RoundsFollow(s, bs, 32, Keys32(), Row32());
    Constants40();
    After40();
    RoundsFollow(s, bs, 40, Keys40(), Row40());
    Constants48();
    After48();
    RoundsFollow(s, bs, 48, Keys48(), Row48());
    Constants56();
    After56();
    RoundsFollow(s, bs, 56, Keys56(), Row56());
  }

  lemma Compressed()
    ensures |Pad(Abc())| == 64 && Rounds(InitialState(), Pad(Abc()), 0, 64) == State64()
  {
    hide Pad, Rounds;
    PaddedAbc();
    FirstHalf(Pad(Abc()));
    SecondHalf(Pad(Abc()));
  }

  lemma Start(bs: Bytes)
    requires |bs| == 64
    ensures Rounds(InitialState(), bs, 0, 0) == State0()
  {
  }

  /** The sum of the initial state and the last. */
  function Final(): State {
    State(0xba7816bf, 0x8f01cfea, 0x414140de, 0x5dae2223, 0xb00361a3, 0x96177a9c, 0xb410ff61, 0xf20015ad)
  }

  lemma Chained()
    ensures |Pad(Abc())| == 64 && HashBlocks(Pad(Abc()), 1) == Final()
  {
    hide Pad, Rounds, HashBlocks;
    Compressed();
    HashNone(Pad(Abc()));
    HashStep(Pad(Abc()), 0);
  }

  lemma WordDigits(a: byte, b: byte, c: byte, d: byte)
    ensures BE(((a * 256 + b) * 256 + c) * 256 + d, 4) == [a, b, c, d]
  {
    FourBytes(a, b, c, d);
    BEOfValue([a, b, c, d]);
  }

  lemma DigestOf(s: State)
    ensures Digest(s) == BE(s.a as int, 4) + BE(s.b as int, 4) + BE(s.c as int, 4) + BE(s.d as int, 4)
                       + BE(s.e as int, 4) + BE(s.f as int, 4) + BE(s.g as int, 4) + BE(s.h as int, 4)
  {
    hide BE;
    var w := [s.a, s.b, s.c, s.d, s.e, s.f, s.g, s.h];
    assert WordBytes(w, 0) == [];
    assert WordBytes(w, 1) == [] + BE(w[0] as int, 4) == BE(w[0] as int, 4);
    assert WordBytes(w, 2) == WordBytes(w, 1) + BE(w[1] as int, 4);
    assert WordBytes(w, 3) == WordBytes(w, 2) + BE(w[2] as int, 4);
    assert WordBytes(w, 4) == WordBytes(w, 3) + BE(w[3] as int, 4);
    assert WordBytes(w, 5) == WordBytes(w, 4) + BE(w[4] as int, 4);
    assert WordBytes(w, 6) == WordBytes(w, 5) + BE(w[5] as int, 4);
    assert WordBytes(w, 7) == WordBytes(w, 6) + BE(w[6] as int, 4);
  }

  lemma Written()
    ensures Digest(Final()) == [
      0xba, 0x78, 0x16, 0xbf, 0x8f, 0x01, 0xcf, 0xea, 0x41, 0x41, 0x40, 0xde, 0x5d, 0xae, 0x22, 0x23,
      0xb0, 0x03, 0x61, 0xa3, 0x96, 0x17, 0x7a, 0x9c, 0xb4, 0x10, 0xff, 0x61, 0xf2, 0x00, 0x15, 0xad]
  {
    hide BE, Digest;
    WordDigits(0xba, 0x78, 0x16, 0xbf);
    WordDigits(0x8f, 0x01, 0xcf, 0xea);
    WordDigits(0x41, 0x41, 0x40, 0xde);
    WordDigits(0x5d, 0xae, 0x22, 0x23);
    WordDigits(0xb0, 0x03, 0x61, 0xa3);
    WordDigits(0x96, 0x17, 0x7a, 0x9c);
    WordDigits(0xb4, 0x10, 0xff, 0x61);
    WordDigits(0xf2, 0x00, 0x15, 0xad);
    DigestOf(Final());
  }

  /** SHA-256("abc"), as published. */
  lemma AbcDigest()
    ensures Hash(Abc()) == [
      0xba, 0x78, 0x16, 0xbf, 0x8f, 0x01, 0xcf, 0xea, 0x41, 0x41, 0x40, 0xde, 0x5d, 0xae, 0x22, 0x23,
      0xb0, 0x03, 0x61, 0xa3, 0x96, 0x17, 0x7a, 0x9c, 0xb4, 0x10, 0xff, 0x61, 0xf2, 0x00, 0x15, 0xad]
  {
    hide Pad, HashBlocks, Digest, InitialState;
    Chained();
    Written();
  }
}
