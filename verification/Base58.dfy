/**
 `decode_base58` (`contracts/svm/smart-account/build.rs`): base-2^32 limb arithmetic, shown to
 be the inverse of base58 encoding.
 */
module Base58 {
  import opened Bytes
  import opened Positional

  function Alphabet(): (a: string)
    ensures |a| == 58
  {
    "123456789" + "ABCDEFGH" + "JKLMN" + "PQRSTUVWXYZ" + "abcdefghijk" + "mnopqrstuvwxyz"
  }

  /** `ALPHABET.iter().position(..)` from index `i` on. */
  function Position(c: char, i: nat := 0): (r: Option<nat>)
    requires i <= 58
    ensures r.Some? ==> i <= r.value < 58 && Alphabet()[r.value] == c
    ensures r.None? ==> forall k :: i <= k < 58 ==> Alphabet()[k] != c
    decreases 58 - i
  {
    if i == 58 then None
    else if Alphabet()[i] == c then Some(i)
    else Position(c, i + 1)
  }

  /** The alphabet is every digit and letter but `0`, `O`, `I` and `l`, in ascending order. */
  lemma AlphabetIs(c: char)
    ensures c in Alphabet() <==>
            && ('0' <= c <= '9' || 'A' <= c <= 'Z' || 'a' <= c <= 'z')
            && c != '0' && c != 'O' && c != 'I' && c != 'l'
  {
    InRuns(c);
    assert Alphabet() == "123456789" + "ABCDEFGH" + "JKLMN" + "PQRSTUVWXYZ" + "abcdefghijk" + "mnopqrstuvwxyz";
  }

  lemma InRuns(c: char)
    ensures c in "123456789" <==> '1' <= c <= '9'
    ensures c in "ABCDEFGH" <==> 'A' <= c <= 'H'
    ensures c in "JKLMN" <==> 'J' <= c <= 'N'
    ensures c in "PQRSTUVWXYZ" <==> 'P' <= c <= 'Z'
    ensures c in "abcdefghijk" <==> 'a' <= c <= 'k'
    ensures c in "mnopqrstuvwxyz" <==> 'm' <= c <= 'z'
  {
  }

  lemma LowAscends()
    ensures forall i :: 0 <= i < 28 ==> Alphabet()[i] < Alphabet()[i + 1]
  {
  }

  lemma HighAscends()
    ensures forall i :: 28 <= i < 57 ==> Alphabet()[i] < Alphabet()[i + 1]
  {
  }

  lemma AlphabetAscends()
    ensures Alphabet()[0] == '1'
    ensures forall i :: 0 <= i < 57 ==> Alphabet()[i] < Alphabet()[i + 1]
  {
    LowAscends();
    HighAscends();
  }

  lemma {:induction false} Ascends(i: nat, j: nat)
    requires i < j < 58
    ensures Alphabet()[i] < Alphabet()[j]
  {
    hide Alphabet;
    AlphabetAscends();
    if i + 1 < j {
      Ascends(i, j - 1);
    }
  }

  /** Every digit's character stands at exactly one position. */
  lemma PositionOf(d: nat)
    requires d < 58
    ensures Position(Alphabet()[d]) == Some(d)
  {
    hide Alphabet;
    var p := Position(Alphabet()[d]).value;
    if p < d {
      Ascends(p, d);
    } else if d < p {
      Ascends(d, p);
    }
  }

  predicate IsBase58(s: string) {
    forall i :: 0 <= i < |s| ==> Position(s[i]).Some?
  }

  function DigitsOf(s: string): (ds: seq<nat>)
    requires IsBase58(s)
    ensures |ds| == |s| && Digits(ds, 58)
  {
    seq(|s|, i requires 0 <= i < |s| => Position(s[i]).value)
  }

  function Text(ds: seq<nat>): (s: string)
    requires Digits(ds, 58)
    ensures |s| == |ds|
  {
    seq(|ds|, i requires 0 <= i < |ds| => Alphabet()[ds[i]])
  }

  function AsBytes(ds: seq<nat>): Bytes
    requires Digits(ds, 256)
  {
    ds
  }

  /** What base58 text stands for: leading `1`s are zero bytes, the rest a base-58 number. */
  function Decode(s: string): Option<Bytes> {
    if IsBase58(s) then
      ConvertKeeps(DigitsOf(s), 58, 256);
      Some(AsBytes(Convert(DigitsOf(s), 58, 256)))
    else None
  }

  function Encode(bs: Bytes): string {
    ConvertKeeps(bs, 256, 58);
    Text(Convert(bs, 256, 58))
  }

  lemma TextDigits(ds: seq<nat>)
    requires Digits(ds, 58)
    ensures IsBase58(Text(ds)) && DigitsOf(Text(ds)) == ds
  {
    hide Alphabet, Position;
    forall i | 0 <= i < |ds|
      ensures Position(Text(ds)[i]) == Some(ds[i])
    {
      PositionOf(ds[i]);
    }
  }

  lemma DigitsText(s: string)
    requires IsBase58(s)
    ensures Text(DigitsOf(s)) == s
  {
    hide Alphabet;
  }

  /** Decoding undoes encoding on every byte string. */
  lemma DecodeEncode(bs: Bytes)
    ensures Decode(Encode(bs)) == Some(bs)
  {
    hide Convert, Text, DigitsOf, IsBase58;
    ConvertKeeps(bs, 256, 58);
    TextDigits(Convert(bs, 256, 58));
    assert Digits(bs, 256);
    ConvertRoundTrip(bs, 256, 58);
  }

  /** Encoding undoes decoding on every base58 string. */
  lemma EncodeDecode(s: string)
    ensures Decode(s).Some? <==> IsBase58(s)
    ensures IsBase58(s) ==> Encode(Decode(s).value) == s
  {
    hide Convert, Text, DigitsOf, IsBase58;
    if IsBase58(s) {
      ConvertKeeps(DigitsOf(s), 58, 256);
      ConvertRoundTrip(DigitsOf(s), 58, 256);
      DigitsText(s);
    }
  }

  /** As many leading `1`s as leading zero bytes. */
  lemma LeadingOnesAreZeros(s: string)
    requires IsBase58(s)
    ensures LeadingZeros(Decode(s).value) == LeadingOnes(s)
  {
    hide Convert, DigitsOf, LeadingZeros, LeadingOnes, IsBase58;
    ConvertKeeps(DigitsOf(s), 58, 256);
    OnesAreZeroDigits(s);
  }

  /** `take_while(b == '1').count()`. */
  function LeadingOnes(s: string): nat {
    if s == [] || s[0] != '1' then 0 else 1 + LeadingOnes(s[1..])
  }

  lemma {:induction false} OnesAreZeroDigits(s: string)
    requires IsBase58(s)
    ensures LeadingZeros(DigitsOf(s)) == LeadingOnes(s)
  {
    hide Alphabet, Position;
    if s != [] {
      assert Position(s[0]).Some?;
      AlphabetAscends();
      PositionOf(0);
      assert Position(s[0]).value == 0 <==> s[0] == '1';
      assert IsBase58(s[1..]);
      assert DigitsOf(s)[1..] == DigitsOf(s[1..]);
      OnesAreZeroDigits(s[1..]);
    }
  }

  /** Base58 of the byte 0x61 behind a zero byte is "12g". */
  lemma KnownText()
    ensures Decode("12g") == Some([0, 0x61])
  {
    hide Position, Alphabet;
    KnownLetters();
    PositionOf(0);
    PositionOf(1);
    PositionOf(39);
    var s := "12g";
    assert s[0] == '1' && s[1] == '2' && s[2] == 'g';
    assert IsBase58(s) && DigitsOf(s) == [0, 1, 39];
    hide Shortest, Val, LeadingZeros, Decode;
    KnownNumber();
    ByDigits(s);
  }

  lemma KnownLetters()
    ensures Alphabet()[0] == '1' && Alphabet()[1] == '2' && Alphabet()[39] == 'g'
  {
  }

  lemma KnownNumber()
    ensures Convert([0, 1, 39], 58, 256) == [0, 97]
  {
    var ds: seq<nat> := [0, 1, 39];
    assert ds[..2] == [0, 1] && ds[..2][..1] == [0] && [0][..0] == [];
    assert Val([0], 58) == 0;
    assert Val([0, 1], 58) == 1 && Val(ds, 58) == 97;
    assert ds[1..] == [1, 39] && LeadingZeros(ds) == 1;
    assert Shortest(97, 256) == Shortest(0, 256) + [97];
  }

  lemma ByDigits(s: string)
    requires IsBase58(s)
    ensures Decode(s) == Some(Convert(DigitsOf(s), 58, 256))
  {
    hide Convert;
  }

  // ---- Limb arithmetic ----

  const RADIX: nat := 0x1_0000_0000

  function RadixPower(n: nat): (p: nat)
    ensures p > 0
  {
    if n == 0 then 1 else RADIX * RadixPower(n - 1)
  }

  ghost predicate Limbs(num: seq<nat>) {
    forall i :: 0 <= i < |num| ==> num[i] < RADIX
  }

  /** Value of the first `n` limbs, least significant first. */
  function LimbValue(num: seq<nat>, n: nat): nat
    requires n <= |num|
  {
    if n == 0 then 0 else LimbValue(num, n - 1) + num[n - 1] * RadixPower(n - 1)
  }

  lemma {:induction false} LimbFrame(a: seq<nat>, b: seq<nat>, n: nat)
    requires n <= |a| && n <= |b| && forall i :: 0 <= i < n ==> a[i] == b[i]
    ensures LimbValue(a, n) == LimbValue(b, n)
  {
    if n > 0 {
      LimbFrame(a, b, n - 1);
    }
  }

  /** One limb: the carry stays at most 57 and nothing of the product is lost. */
  lemma LimbStep(limb: nat, carry: nat, v: nat)
    requires limb < RADIX && carry <= 57 && v == limb * 58 + carry
    ensures v / RADIX <= 57 && v == v % RADIX + RADIX * (v / RADIX)
    ensures v < 0x1_0000_0000_0000_0000
  {
  }

  lemma StepValue(low: nat, before: nat, limb: nat, carry: nat, d: nat, p: nat, next: nat, out: nat)
    requires low + carry * p == 58 * before + d
    requires limb * 58 + carry == out + RADIX * next
    ensures low + out * p + next * (RADIX * p) == 58 * (before + limb * p) + d
  {
    calc {
      low + out * p + next * (RADIX * p);
      low + (out + RADIX * next) * p;
      low + (limb * 58 + carry) * p;
      low + carry * p + 58 * (limb * p);
    }
  }

  /** `num * 58 + digit`, in place over the limbs, with at most one push. */
  method MultiplyAdd(num: seq<nat>, digit: nat) returns (r: seq<nat>)
    requires Limbs(num) && digit < 58
    ensures Limbs(r) && |num| <= |r| <= |num| + 1
    ensures LimbValue(r, |r|) == 58 * LimbValue(num, |num|) + digit
  {
    hide LimbValue, RadixPower;
    r := num;
    var carry: nat := digit;
    var i := 0;
    LimbsNone(r);
    LimbsNone(num);
    while i < |num|
      invariant 0 <= i <= |num| == |r|
      invariant Limbs(r) && carry <= 57
      invariant r[i..] == num[i..]
      invariant LimbValue(r, i) + carry * RadixPower(i) == 58 * LimbValue(num, i) + digit
    {
      assert r[i] == r[i..][0] == num[i];
      var v := r[i] * 58 + carry;
      LimbStep(r[i], carry, v);
      StepValue(LimbValue(r, i), LimbValue(num, i), num[i], carry, digit, RadixPower(i), v / RADIX, v % RADIX);
      ghost var before := r;
      r := r[i := v % RADIX];
      LimbFrame(before, r, i);
      LimbsNext(r, i);
      LimbsNext(num, i);
      carry := v / RADIX;
      i := i + 1;
      assert r[i..] == before[i..] == num[i..];
    }
    if carry > 0 {
      ghost var before := r;
      r := r + [carry];
      LimbFrame(before, r, i);
      LimbsNext(r, i);
      assert LimbValue(r, i + 1) == LimbValue(before, i) + carry * RadixPower(i);
    } else {
      assert carry * RadixPower(i) == 0;
    }
  }

  lemma LimbsNone(num: seq<nat>)
    ensures LimbValue(num, 0) == 0 && RadixPower(0) == 1
  {
  }

  lemma LimbsNext(num: seq<nat>, n: nat)
    requires n < |num|
    ensures LimbValue(num, n + 1) == LimbValue(num, n) + num[n] * RadixPower(n)
    ensures RadixPower(n + 1) == RADIX * RadixPower(n)
  {
  }

  lemma {:induction false} ValueAppend(a: Bytes, b: Bytes)
    ensures Value(a + b) == Value(a) * Pow256(|b|) + Value(b)
  {
    if b == [] {
      assert a + b == a;
    } else {
      var n := |b| - 1;
      ValueAppend(a, b[..n]);
      assert (a + b)[..|a| + n] == a + b[..n];
      assert Value(a) * (256 * Pow256(n)) == Value(a) * Pow256(n) * 256;
    }
  }

  lemma AppendLimb(acc: Bytes, d: nat)
    requires d < RADIX
    ensures Value(acc + BE(d, 4)) == Value(acc) * RADIX + d
  {
    hide BE, Value, Pow256;
    Pow4();
    BERoundTrip(d, 4);
    ValueAppend(acc, BE(d, 4));
  }

  lemma Pow4()
    ensures Pow256(4) == RADIX
  {
    assert Pow256(4) == 256 * Pow256(3) && Pow256(3) == 256 * Pow256(2);
    assert Pow256(2) == 256 * Pow256(1) && Pow256(1) == 256 * Pow256(0);
  }

  lemma Regroup(v: nat, d: nat, p: nat, low: nat)
    ensures (v * RADIX + d) * p + low == v * (RADIX * p) + (low + d * p)
  {
  }

  /** `for d in num.iter().rev()`: the limbs big-endian, most significant first. */
  method LimbBytes(num: seq<nat>) returns (bytes: Bytes)
    requires Limbs(num)
    ensures Value(bytes) == LimbValue(num, |num|)
  {
    hide LimbValue, RadixPower, BE, Value;
    bytes := [];
    var i := |num|;
    EmptyValue();
    while i > 0
      invariant 0 <= i <= |num|
      invariant Value(bytes) * RadixPower(i) + LimbValue(num, i) == LimbValue(num, |num|)
    {
      i := i - 1;
      LimbsNext(num, i);
      AppendLimb(bytes, num[i]);
      Regroup(Value(bytes), num[i], RadixPower(i), LimbValue(num, i));
      bytes := bytes + BE(num[i], 4);
    }
    LimbsNone(num);
  }

  lemma EmptyValue()
    ensures Value([]) == 0
  {
  }

  /** `skip_while(b == 0)`. */
  method SkipZeros(bytes: Bytes) returns (rest: Bytes)
    ensures rest == bytes[LeadingZeros(bytes)..]
  {
    var i := 0;
    while i < |bytes| && bytes[i] == 0
      invariant 0 <= i <= |bytes|
      invariant LeadingZeros(bytes) == i + LeadingZeros(bytes[i..])
    {
      assert bytes[i..][1..] == bytes[i + 1..];
      i := i + 1;
    }
    assert bytes[i..] == [] || bytes[i..][0] != 0;
    return bytes[i..];
  }

  method CountOnes(s: string) returns (n: nat)
    ensures n == LeadingOnes(s)
  {
    n := 0;
    while n < |s| && s[n] == '1'
      invariant 0 <= n <= |s|
      invariant LeadingOnes(s) == n + LeadingOnes(s[n..])
    {
      assert s[n..][1..] == s[n + 1..];
      n := n + 1;
    }
  }

  /** The limbs always hold the positional value of the characters read so far. */
  method ReadDigits(s: string) returns (r: Option<seq<nat>>)
    ensures r.Some? <==> IsBase58(s)
    ensures r.Some? ==> Limbs(r.value) && LimbValue(r.value, |r.value|) == Val(DigitsOf(s), 58)
  {
    hide Position, Alphabet, RadixPower;
    var num: seq<nat> := [0];
    var i := 0;
    ghost var read: seq<nat> := [];
    while i < |s|
      invariant 0 <= i <= |s| && Limbs(num)
      invariant |read| == i && forall k :: 0 <= k < i ==> Position(s[k]) == Some(read[k])
      invariant LimbValue(num, |num|) == Val(read, 58)
    {
      hide LimbValue, Val, DigitsOf;
      var digit := Position(s[i]);
      if digit.None? {
        assert !IsBase58(s);
        return None;
      }
      num := MultiplyAdd(num, digit.value);
      ValSnoc(read, digit.value, 58);
      read := read + [digit.value];
      i := i + 1;
    }
    assert read == DigitsOf(s);
    return Some(num);
  }

  method DecodeBase58(s: string) returns (r: Option<Bytes>)
    ensures r == Decode(s)
  {
    hide IsBase58, DigitsOf, LimbValue, Val, Value, LeadingZeros, LeadingOnes, Shortest;
    var num := ReadDigits(s);
    if num.None? {
      return None;
    }
    var bytes := LimbBytes(num.value);
    var rest := SkipZeros(bytes);
    var leading := CountOnes(s);
    ValIsValue(bytes);
    StrippedIsShortest(bytes, 256);
    OnesAreZeroDigits(s);
    assert Zeros(leading) == ZeroDigits(leading);
    return Some(Zeros(leading) + rest);
  }
}
