/**
 ECDSA signature bytes (`packages/core/src/bytes.ts`): the DER cursor parser
 `derToRawEcdsa` and `normalizeLowS`.

 Reading past the end of a typed array yields `undefined`, which counts as 0 under the bit
 operators, fails every comparison, and makes `BigInt` throw; a throw is `None` here.
 */
module Signatures {
  import opened Bytes
  import opened Positional

  // ---- The parser ----

  /** A 32-bit shift-and-or: `(len << 8) | b`. */
  function ShiftIn(len: int, b: byte): int {
    (len * 256 + 0x8000_0000) % 0x1_0000_0000 - 0x8000_0000 + b
  }

  /** A byte under a bit operator. */
  function ByteOrZero(der: Bytes, i: nat): byte {
    if i < |der| then der[i] else 0
  }

  /** The length octets `[i, i + n)` folded into a 32-bit integer. */
  function LongLength(der: Bytes, i: nat, n: nat): int {
    if n == 0 then 0 else ShiftIn(LongLength(der, i, n - 1), ByteOrZero(der, i + n - 1))
  }

  /** Length and position of the contents, for the length octet at `i`. */
  function ReadLength(der: Bytes, i: nat): (r: (int, nat))
    ensures r.1 > i
  {
    var b := ByteOrZero(der, i);
    if b < 128 then (b, i + 1) else (LongLength(der, i + 1, b - 128), i + 1 + (b - 128))
  }

  function Content(der: Bytes, at: nat, len: int): Option<nat> {
    if len <= 0 then Some(0)
    else if at + len <= |der| then Some(Value(der[at..at + len]))
    else None
  }

  /** The integers from cursor `i` to the end of the input. */
  function ReadIntegers(der: Bytes, i: nat): Option<seq<nat>>
    decreases |der| - i
  {
    if i >= |der| then Some([])
    else if der[i] != 0x02 then None
    else
      var (len, at) := ReadLength(der, i + 1);
      var v :- Content(der, at, len);
      var rest :- ReadIntegers(der, if len <= 0 then at else at + len);
      Some([v] + rest)
  }

  /** Where the first integer starts. */
  function Start(der: Bytes): nat {
    var b := ByteOrZero(der, 1);
    if b < 128 then 2 else 2 + (b - 128)
  }

  function RawOf(der: Bytes): Option<Bytes> {
    if |der| == 0 || der[0] != 0x30 then None
    else
      var ints :- ReadIntegers(der, Start(der));
      if |ints| != 2 then None else Some(BE(ints[0], 32) + BE(ints[1], 32))
  }

  /** `bigintToPadded32`. */
  method Padded32(v: int) returns (bs: Bytes)
    ensures bs == BE(v, 32)
  {
    var out := new byte[32](i => 0);
    var x := v;
    var i := 32;
    while i > 0
      invariant 0 <= i <= 32
      invariant BE(x, i) + out[i..] == BE(v, 32)
    {
      ghost var done := out[i..];
      ghost var step := BE(x, i);
      i := i - 1;
      out[i] := x % 256;
      assert step == BE(x / 256, i) + [x % 256];
      assert out[i..] == [x % 256] + done;
      x := x / 256;
    }
    assert BE(x, 0) + out[0..] == out[..];
    return out[..];
  }

  lemma ValueNext(der: Bytes, at: nat, k: nat)
    requires at + k < |der|
    ensures Value(der[at..at + k + 1]) == Value(der[at..at + k]) * 256 + der[at + k]
  {
    assert der[at..at + k + 1][..k] == der[at..at + k];
  }

  /** `len = der[i++]` and its long form. */
  method ReadLengthOctets(der: Bytes, start: nat) returns (len: int, i: nat)
    ensures ReadLength(der, start) == (len, i)
  {
    hide ShiftIn;
    len := ByteOrZero(der, start);
    i := start + 1;
    if len >= 128 {
      var n := len - 128;
      len := 0;
      var k := 0;
      while k < n
        invariant 0 <= k <= n && i == start + 1 + k
        invariant len == LongLength(der, start + 1, k)
      {
        len := ShiftIn(len, ByteOrZero(der, i));
        i := i + 1;
        k := k + 1;
      }
    }
  }

  lemma EmptyAt(der: Bytes, at: nat)
    requires at <= |der|
    ensures Value(der[at..at]) == 0
  {
  }

  /** `v = (v << 8n) | BigInt(der[i++])`, `len` times. */
  method ReadContent(der: Bytes, at: nat, len: int) returns (v: Option<nat>, i: nat)
    ensures v == Content(der, at, len)
    ensures i >= at && (v.Some? ==> i == if len <= 0 then at else at + len)
  {
    hide Value;
    i := at;
    var acc: nat := 0;
    var k := 0;
    while k < len
      invariant 0 <= k && i == at + k && (k == 0 || k <= len)
      invariant if k == 0 then acc == 0 else i <= |der| && acc == Value(der[at..at + k])
    {
      if i >= |der| {
        return None, i;
      }
      EmptyAt(der, at);
      ValueNext(der, at, k);
      acc := acc * 256 + der[i];
      i := i + 1;
      k := k + 1;
    }
    return Some(acc), i;
  }

  /** `derToRawEcdsa`; the unread suffix shrinks with every INTEGER. */
  method DerToRawEcdsa(der: Bytes) returns (r: Option<Bytes>)
    ensures r == RawOf(der)
  {
    hide BE, Content, ReadLength;
    if |der| == 0 || der[0] != 0x30 {
      return None;
    }
    var i := 2;
    var seqLen := ByteOrZero(der, 1);
    if seqLen >= 128 {
      i := i + (seqLen - 128);
    }
    var ints: seq<nat> := [];
    ghost var start := i;
    NothingRead(ReadIntegers(der, start));
    while i < |der|
      invariant ReadIntegers(der, start) ==
        match ReadIntegers(der, i)
        case None => None
        case Some(rest) => Some(ints + rest)
      decreases |der| - i
    {
      if der[i] != 0x02 {
        return None;
      }
      var len, at := ReadLengthOctets(der, i + 1);
      var v, next := ReadContent(der, at, len);
      if v.None? {
        return None;
      }
      AppendOne(ints, v.value);
      ints := ints + [v.value];
      i := next;
    }
    assert ints + [] == ints;
    if |ints| != 2 {
      return None;
    }
    var a := Padded32(ints[0]);
    var b := Padded32(ints[1]);
    return Some(a + b);
  }

  lemma NothingRead(o: Option<seq<nat>>)
    ensures o == match o case None => None case Some(rest) => Some([] + rest)
  {
    if o.Some? {
      assert [] + o.value == o.value;
    }
  }

  lemma AppendOne(ints: seq<nat>, v: nat)
    ensures forall rest: seq<nat> :: ints + ([v] + rest) == (ints + [v]) + rest
  {
  }

  // ---- DER (section 2.2.3 of RFC 3279, X.690 sections 8.1.3, 8.3 and 10.1) ----

  /** Big-endian without leading zeros. */
  function Octets(v: nat): (bs: Bytes)
    ensures Value(bs) == v
    ensures v > 0 ==> bs != [] && bs[0] != 0
  {
    ShortestIs(v, 256);
    ValIsValue(Shortest(v, 256));
    Shortest(v, 256)
  }

  lemma {:induction false} OctetsBound(v: nat, w: nat)
    requires v < Pow256(w)
    ensures |Octets(v)| <= w
  {
    if v > 0 {
      OctetsBound(v / 256, w - 1);
    }
  }

  /** Contents of a non-negative INTEGER: minimal two's complement. */
  function IntegerContent(v: nat): (bs: Bytes)
    ensures Value(bs) == v && bs != []
  {
    hide Value;
    if v == 0 then
      ValueZeros(1, []);
      assert Zeros(1) + [] == [0];
      EmptyAt([], 0);
      [0]
    else if Octets(v)[0] >= 128 then
      ValueZeros(1, Octets(v));
      assert Zeros(1) + Octets(v) == [0] + Octets(v);
      [0] + Octets(v)
    else Octets(v)
  }

  /** Definite-length octets, short form below 128. */
  function LengthOctets(n: nat): Bytes
    requires n < Pow256(127)
  {
    OctetsBound(n, 127);
    if n < 128 then [n] else [128 + |Octets(n)|] + Octets(n)
  }

  predicate Short(v: nat) {
    |IntegerContent(v)| < 0x8000_0000
  }

  lemma Below127(n: nat)
    requires n < 0x100_0000_0000
    ensures n < Pow256(127)
  {
    hide Pow256;
    Pow256Monotone(5, 127);
    Pow5();
  }

  lemma Pow5()
    ensures Pow256(4) == 0x1_0000_0000 && Pow256(5) == 0x100_0000_0000
  {
    assert Pow256(4) == 256 * Pow256(3) && Pow256(3) == 256 * Pow256(2);
    assert Pow256(2) == 256 * Pow256(1) && Pow256(1) == 256 * Pow256(0);
  }

  function DerInteger(v: nat): Bytes
    requires Short(v)
  {
    Below127(|IntegerContent(v)|);
    [0x02] + (LengthOctets(|IntegerContent(v)|) + IntegerContent(v))
  }

  lemma LengthOctetsBound(n: nat)
    requires n < 0x8000_0000
    ensures n < Pow256(127) && |LengthOctets(n)| <= 5
  {
    hide Pow256, Octets;
    Below127(n);
    Pow5();
    OctetsBound(n, 4);
  }

  lemma DerIntegerBound(v: nat)
    requires Short(v)
    ensures |DerInteger(v)| < 0x8000_0006
  {
    hide IntegerContent, Pow256, LengthOctets;
    LengthOctetsBound(|IntegerContent(v)|);
  }

  function DerBody(r: nat, s: nat): Bytes
    requires Short(r) && Short(s)
  {
    DerInteger(r) + DerInteger(s)
  }

  /** `SEQUENCE { INTEGER r, INTEGER s }`. */
  function Der(r: nat, s: nat): Bytes
    requires Short(r) && Short(s)
  {
    DerIntegerBound(r);
    DerIntegerBound(s);
    Below127(|DerBody(r, s)|);
    [0x30] + (LengthOctets(|DerBody(r, s)|) + DerBody(r, s))
  }

  lemma {:induction false} LongLengthReads(der: Bytes, i: nat, part: Bytes, k: nat)
    requires At(der, i, part) && k <= |part| && Value(part[..k]) < 0x8000_0000
    ensures LongLength(der, i, k) == Value(part[..k])
  {
    if k > 0 {
      assert part[..k][..k - 1] == part[..k - 1];
      assert Value(part[..k]) == Value(part[..k - 1]) * 256 + part[k - 1];
      LongLengthReads(der, i, part, k - 1);
      assert der[i..i + |part|][k - 1] == der[i + k - 1];
    } else {
      assert part[..0] == [];
    }
  }

  lemma FirstAt(der: Bytes, i: nat, b: byte, rest: Bytes)
    requires At(der, i, [b] + rest)
    ensures i < |der| && der[i] == b && At(der, i + 1, rest)
  {
    AtSplit(der, i, [b], rest);
    assert der[i..i + 1][0] == b;
  }

  lemma ReadLengthAt(der: Bytes, i: nat, n: nat)
    requires n < 0x8000_0000 && n < Pow256(127) && At(der, i, LengthOctets(n))
    ensures ReadLength(der, i) == (n, i + |LengthOctets(n)|)
  {
    hide Pow256, Octets, Value, LongLength, At;
    LengthOctetsBound(n);
    if n < 128 {
      assert [n] + [] == [n];
      FirstAt(der, i, n, []);
    } else {
      var octets := Octets(n);
      FirstAt(der, i, 128 + |octets|, octets);
      assert octets[..|octets|] == octets;
      LongLengthReads(der, i + 1, octets, |octets|);
    }
  }

  /** An INTEGER at the cursor is read and skipped. */
  lemma IntegerRead(der: Bytes, i: nat, v: nat)
    requires Short(v) && At(der, i, DerInteger(v))
    ensures ReadIntegers(der, i) ==
      match ReadIntegers(der, i + |DerInteger(v)|)
      case None => None
      case Some(rest) => Some([v] + rest)
  {
    hide Pow256, Value, At, IntegerContent, LengthOctets, ReadLength;
    var c := IntegerContent(v);
    LengthOctetsBound(|c|);
    FirstAt(der, i, 0x02, LengthOctets(|c|) + c);
    AtSplit(der, i + 1, LengthOctets(|c|), c);
    ReadLengthAt(der, i + 1, |c|);
    ContentAt(der, i + 1 + |LengthOctets(|c|)|, c);
  }

  lemma ContentAt(der: Bytes, at: nat, c: Bytes)
    requires At(der, at, c) && c != []
    ensures Content(der, at, |c|) == Some(Value(c))
  {
  }

  lemma StartAt(der: Bytes, n: nat, rest: Bytes)
    requires n < Pow256(127) && At(der, 1, LengthOctets(n) + rest)
    ensures Start(der) == 1 + |LengthOctets(n)|
  {
    hide Pow256, Value, At, Octets;
    AtSplit(der, 1, LengthOctets(n), rest);
    OctetsBound(n, 127);
    if n < 128 {
      assert [n] + [] == [n];
      FirstAt(der, 1, n, []);
    } else {
      FirstAt(der, 1, 128 + |Octets(n)|, Octets(n));
    }
  }

  /**
   Parsing the DER form of any r and s, in short or long form, gives both numbers modulo
   2^256 as 32-byte big-endian values.
   */
  lemma DerParses(r: nat, s: nat)
    requires Short(r) && Short(s)
    ensures RawOf(Der(r, s)) == Some(BE(r, 32) + BE(s, 32))
  {
    hide BE, Pow256, Value, At, LengthOctets, Start, IntegerContent, DerInteger, Short, ReadIntegers;
    var der, body := Der(r, s), DerBody(r, s);
    DerIntegerBound(r);
    DerIntegerBound(s);
    Below127(|body|);
    AtFront(der, []);
    assert der + [] == der;
    var lo := LengthOctets(|body|);
    FirstAt(der, 0, 0x30, lo + body);
    StartAt(der, |body|, body);
    AtSplit(der, 1, lo, body);
    AtSplit(der, 1 + |lo|, DerInteger(r), DerInteger(s));
    IntegerRead(der, 1 + |lo|, r);
    IntegerRead(der, 1 + |lo| + |DerInteger(r)|, s);
    assert |der| == 1 + |lo| + |DerInteger(r)| + |DerInteger(s)|;
    EndRead(der);
    assert [r] + ([s] + []) == [r, s];
  }

  lemma EndRead(der: Bytes)
    ensures ReadIntegers(der, |der|) == Some([])
  {
  }

  lemma SmallIsShort(v: nat)
    requires v < Pow256(32)
    ensures Short(v)
  {
    hide Pow256, Octets, Value;
    OctetsBound(v, 32);
  }

  lemma TwoHalves(a: int, b: int)
    ensures (BE(a, 32) + BE(b, 32))[..32] == BE(a, 32) && (BE(a, 32) + BE(b, 32))[32..] == BE(b, 32)
  {
    hide BE;
  }

  /** Both numbers come back exactly when they fit 32 bytes. */
  lemma DerRoundTrip(r: nat, s: nat)
    requires Short(r) && Short(s)
    ensures RawOf(Der(r, s)).Some?
    ensures var raw := RawOf(Der(r, s)).value;
            |raw| == 64 && (Value(raw[..32]) == r && Value(raw[32..]) == s <==> r < Pow256(32) && s < Pow256(32))
  {
    hide BE, Pow256, Value, Der, RawOf, Short;
    DerParses(r, s);
    TwoHalves(r, s);
    ValueOfBE(r, 32);
    ValueOfBE(s, 32);
    if r < Pow256(32) && s < Pow256(32) {
      BERoundTrip(r, 32);
      BERoundTrip(s, 32);
    }
  }

  /** For all r and s below 2^256: their DER form parses to two 32-byte values that are r and s. */
  lemma DerRoundTrip256(r: nat, s: nat)
    requires r < Pow256(32) && s < Pow256(32)
    ensures Short(r) && Short(s) && RawOf(Der(r, s)).Some?
    ensures var raw := RawOf(Der(r, s)).value;
            |raw| == 64 && Value(raw[..32]) == r && Value(raw[32..]) == s
  {
    hide Pow256, Value, Der, RawOf, Short;
    SmallIsShort(r);
    SmallIsShort(s);
    DerRoundTrip(r, s);
  }

  // ---- Low-S normalization ----

  const N: nat := 0xFFFFFFFF00000000FFFFFFFFFFFFFFFFBCE6FAADA7179E84F3B9CAC2FC632551

  /** The field of the curve, 2^256 - 2^224 + 2^192 + 2^96 - 1. */
  const P: nat := 0xFFFFFFFF00000001000000000000000000000000FFFFFFFFFFFFFFFFFFFFFFFF

  /**
   N is the order of secp256r1: the decimal value in SEC 2, section 2.4.2, and, as the order of
   a curve over that field must, within Hasse's bound of P + 1.
   */
  lemma CurveOrder()
    ensures N == 115792089210356248762697446949407573529996955224135760342422259061068512044369
    ensures (P + 1 - N) * (P + 1 - N) <= 4 * P
  {
  }

  /** `bytesToBigint`. */
  method BytesToBigint(bs: Bytes) returns (v: nat)
    ensures v == Value(bs)
  {
    v := 0;
    var i := 0;
    while i < |bs|
      invariant 0 <= i <= |bs| && v == Value(bs[..i])
    {
      assert bs[..i + 1][..i] == bs[..i];
      v := v * 256 + bs[i];
      i := i + 1;
    }
    assert bs[..i] == bs;
  }

  function LowS(s: nat): int {
    if s > N / 2 then N - s else s
  }

  function Normalized(sig: Bytes): Option<Bytes> {
    if |sig| != 64 then None
    else Some(BE(Value(sig[..32]), 32) + BE(LowS(Value(sig[32..])), 32))
  }

  method NormalizeLowS(sig: Bytes) returns (r: Option<Bytes>)
    ensures r == Normalized(sig)
  {
    hide BE, Value;
    if |sig| != 64 {
      return None;
    }
    var rr := BytesToBigint(sig[..32]);
    var s: int := BytesToBigint(sig[32..]);
    if s > N / 2 {
      s := N - s;
    }
    var a := Padded32(rr);
    var b := Padded32(s);
    return Some(a + b);
  }

  lemma OrderBelowWidth()
    ensures N < Pow256(32) < 2 * N && Pow256(32) % 2 == 0
  {
    hide Pow256;
    Pow5();
    Pow256Add(4, 4);
    Pow256Add(8, 8);
    Pow256Add(16, 16);
    assert Pow256(8) == 0x1_0000_0000_0000_0000;
    assert Pow256(16) == 0x1_0000_0000_0000_0000_0000_0000_0000_0000;
    assert Pow256(32) == 0x1_0000_0000_0000_0000_0000_0000_0000_0000_0000_0000_0000_0000_0000_0000_0000_0000;
  }

  /** The normalized s as a number: what the subtraction leaves modulo 2^256. */
  function NormalS(s: nat): int {
    if s <= N then LowS(s) else Pow256(32) + N - s
  }

  lemma NormalizedParts(sig: Bytes)
    requires |sig| == 64
    ensures Normalized(sig).Some?
    ensures var out := Normalized(sig).value;
            |out| == 64 && out[..32] == sig[..32] && Value(out[32..]) == NormalS(Value(sig[32..]))
  {
    hide BE, Value, Pow256;
    var s := Value(sig[32..]);
    BEOfValue(sig[..32]);
    BEOfValue(sig[32..]);
    TwoHalves(Value(sig[..32]), LowS(s));
    OrderBelowWidth();
    ValueOfBE(LowS(s), 32);
    if s <= N {
      DivModUnique(LowS(s), Pow256(32), 0, LowS(s));
    } else {
      DivModUnique(LowS(s), Pow256(32), -1, Pow256(32) + N - s);
    }
  }

  /**
   The result keeps r; its s is low exactly when the given s is at most the curve order,
   and is then s or N - s.
   */
  lemma LowSExactly(sig: Bytes)
    requires |sig| == 64
    ensures Normalized(sig).Some? && |Normalized(sig).value| == 64
    ensures var s, out := Value(sig[32..]), Normalized(sig).value;
            out[..32] == sig[..32]
            && (Value(out[32..]) <= N / 2 <==> s <= N)
            && (s <= N ==> Value(out[32..]) == s || Value(out[32..]) == N - s)
  {
    hide BE, Value, Pow256, Normalized;
    NormalizedParts(sig);
    BEOfValue(sig[32..]);
    OrderBelowWidth();
  }

  lemma SameHalves(a: Bytes, b: Bytes)
    requires |a| == 64 && |b| == 64
    ensures a == b <==> a[..32] == b[..32] && a[32..] == b[32..]
  {
    if a[..32] == b[..32] && a[32..] == b[32..] {
      assert a == a[..32] + a[32..] && b == b[..32] + b[32..];
    }
  }

  /** Normalizing again changes nothing exactly when s is at most N; above N it undoes itself. */
  lemma NormalizeTwice(sig: Bytes)
    requires |sig| == 64
    ensures Normalized(sig).Some?
    ensures var once := Normalized(sig);
            (Normalized(once.value) == once <==> Value(sig[32..]) <= N)
            && (Value(sig[32..]) > N ==> Normalized(once.value) == Some(sig))
  {
    hide BE, Value, Pow256, Normalized;
    NormalizedParts(sig);
    var once := Normalized(sig).value;
    NormalizedParts(once);
    var twice := Normalized(once).value;
    BEOfValue(sig[32..]);
    BEOfValue(once[32..]);
    BEOfValue(twice[32..]);
    OrderBelowWidth();
    SameHalves(once, twice);
    SameHalves(sig, twice);
  }
}
