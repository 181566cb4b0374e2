/**
 Byte strings and fixed-width integers: the vocabulary of
 `packages/core/src/bytes.ts`, `beUint` in `packages/core/src/evm.ts` and `ube`
 in `packages/evm/src/adapter.ts`.

 A JavaScript bigint `v & 0xffn` / `v >>= 8n` step is Dafny's `v % 256` and
 `v / 256`: both floor, so negative values behave as infinite two's complement.
 */
module Bytes {

  type byte = b: int | 0 <= b < 256

  type Bytes = seq<byte>

  datatype Option<+T> = None | Some(value: T) {
    predicate IsFailure() { None? }
    function PropagateFailure<U>(): Option<U>
      requires None?
    {
      None
    }
    function Extract(): T
      requires Some?
    {
      value
    }
  }

  function Pow256(w: nat): (p: nat)
    ensures p > 0
  {
    if w == 0 then 1 else 256 * Pow256(w - 1)
  }

  /** The low `w` bytes of `v`, most significant first. */
  function BE(v: int, w: nat): (bs: Bytes)
    ensures |bs| == w
    decreases w, v
  {
    if w == 0 then [] else BE(v / 256, w - 1) + [v % 256]
  }

  /** The low `w` bytes of `v`, least significant first. */
  function LE(v: int, w: nat): (bs: Bytes)
    ensures |bs| == w
    decreases w, v
  {
    if w == 0 then [] else [v % 256] + LE(v / 256, w - 1)
  }

  /** Positional value of a big-endian byte string. */
  function Value(bs: Bytes): nat {
    if bs == [] then 0 else Value(bs[..|bs| - 1]) * 256 + bs[|bs| - 1]
  }

  /** Positional value of a little-endian byte string. */
  function ValueLE(bs: Bytes): nat {
    if bs == [] then 0 else bs[0] + 256 * ValueLE(bs[1..])
  }

  function Zeros(n: nat): (zs: Bytes)
    ensures |zs| == n
    ensures forall i :: 0 <= i < n ==> zs[i] == 0
  {
    seq(n, i => 0)
  }

  /** `parts.join("")` / `concat(...parts)`. */
  function Flatten(parts: seq<Bytes>): Bytes {
    if parts == [] then [] else parts[0] + Flatten(parts[1..])
  }

  lemma Assoc(a: Bytes, b: Bytes, c: Bytes)
    ensures (a + b) + c == a + (b + c)
  {
  }

  /** `part` occurs in `buf` at position `at`. */
  predicate At(buf: Bytes, at: nat, part: Bytes) {
    at + |part| <= |buf| && buf[at..at + |part|] == part
  }

  lemma AtSplit(buf: Bytes, at: nat, a: Bytes, b: Bytes)
    requires At(buf, at, a + b)
    ensures At(buf, at, a) && At(buf, at + |a|, b)
  {
    assert buf[at..at + |a|] == (a + b)[..|a|];
    assert buf[at + |a|..at + |a| + |b|] == (a + b)[|a|..];
  }

  lemma AtFront(a: Bytes, b: Bytes)
    ensures At(a + b, 0, a)
  {
    assert (a + b)[0..|a|] == a;
  }

  lemma AtPrefix(data: Bytes, at: nat, part: Bytes, n: nat)
    requires At(data, at, part) && n <= |part|
    ensures At(data, at, part[..n])
  {
    assert data[at..at + n] == data[at..at + |part|][..n];
  }

  lemma AtDrop(buf: Bytes, at: nat, off: nat, part: Bytes)
    requires off <= |buf| && At(buf, off + at, part)
    ensures At(buf[off..], at, part)
  {
    assert buf[off..][at..at + |part|] == buf[off + at..off + at + |part|];
  }

  lemma {:induction false} FlattenAppend(a: seq<Bytes>, b: seq<Bytes>)
    ensures Flatten(a + b) == Flatten(a) + Flatten(b)
  {
    if a == [] {
      assert a + b == b;
    } else {
      assert (a + b)[1..] == a[1..] + b;
      FlattenAppend(a[1..], b);
    }
  }

  lemma MultipleIsFar(m: int, d: int)
    requires m > 0
    ensures d >= 1 ==> m * d >= m
    ensures d <= -1 ==> m * d <= -m
  {
  }

  /** Division and remainder are the only pair with a remainder in range. */
  lemma DivModUnique(v: int, m: int, q: int, r: int)
    requires 0 <= r < m && v == m * q + r
    ensures v / m == q && v % m == r
  {
    var d := v / m - q;
    assert v == m * (v / m) + v % m;
    assert m * d == r - v % m by {
      assert m * d == m * (v / m) - m * q;
    }
    MultipleIsFar(m, d);
  }

  /** Splitting off the low byte of a residue. */
  lemma ModSplit(v: int, p: nat)
    requires p > 0
    ensures v % (256 * p) == v % 256 + 256 * ((v / 256) % p)
  {
    var h := v / 256;
    var q, m := h / p, h % p;
    assert h == p * q + m;
    assert v == (256 * p) * q + (256 * m + v % 256) by {
      assert v == 256 * (p * q + m) + v % 256;
    }
    DivModUnique(v, 256 * p, q, 256 * m + v % 256);
  }

  lemma {:induction false} ValueOfBE(v: int, w: nat)
    ensures Value(BE(v, w)) == v % Pow256(w)
    decreases w
  {
    if w > 0 {
      ValueOfBE(v / 256, w - 1);
      ModSplit(v, Pow256(w - 1));
      assert BE(v, w)[..w - 1] == BE(v / 256, w - 1);
    }
  }

  lemma {:induction false} ValueOfLE(v: int, w: nat)
    ensures ValueLE(LE(v, w)) == v % Pow256(w)
    decreases w
  {
    if w > 0 {
      ValueOfLE(v / 256, w - 1);
      ModSplit(v, Pow256(w - 1));
      assert LE(v, w)[1..] == LE(v / 256, w - 1);
    }
  }

  lemma {:induction false} BEOfValue(bs: Bytes)
    ensures Value(bs) < Pow256(|bs|)
    ensures BE(Value(bs), |bs|) == bs
  {
    if bs != [] {
      var n := |bs|;
      BEOfValue(bs[..n - 1]);
      assert Value(bs) / 256 == Value(bs[..n - 1]);
      assert bs == bs[..n - 1] + [bs[n - 1]];
    }
  }

  lemma {:induction false} LEOfValue(bs: Bytes)
    ensures ValueLE(bs) < Pow256(|bs|)
    ensures LE(ValueLE(bs), |bs|) == bs
  {
    if bs != [] {
      LEOfValue(bs[1..]);
      assert ValueLE(bs) / 256 == ValueLE(bs[1..]);
      assert bs == [bs[0]] + bs[1..];
    }
  }

  /** The last bytes of a big-endian integer are its encoding in the smaller width. */
  lemma {:induction false} BESuffix(v: int, w: nat, k: nat)
    requires k <= w
    ensures BE(v, w)[w - k..] == BE(v, k)
    decreases k
  {
    if k > 0 {
      BESuffix(v / 256, w - 1, k - 1);
      assert BE(v, w)[w - k..] == BE(v / 256, w - 1)[w - k..] + [v % 256];
    }
  }

  /** Widening a value that fits only prepends zeros. */
  lemma {:induction false} BEWiden(v: int, w: nat, k: nat)
    requires w <= k && 0 <= v < Pow256(w)
    ensures BE(v, k) == Zeros(k - w) + BE(v, w)
    decreases k
  {
    if k > 0 {
      if w > 0 {
        BEWiden(v / 256, w - 1, k - 1);
        Assoc(Zeros(k - w), BE(v / 256, w - 1), [v % 256]);
      } else {
        BEWiden(0, 0, k - 1);
        assert Zeros(k) == Zeros(k - 1) + [0];
      }
    }
  }

  lemma {:induction false} ValueZeros(n: nat, bs: Bytes)
    ensures Value(Zeros(n) + bs) == Value(bs)
    decreases |bs|, n
  {
    if bs != [] {
      assert (Zeros(n) + bs)[..n + |bs| - 1] == Zeros(n) + bs[..|bs| - 1];
      ValueZeros(n, bs[..|bs| - 1]);
    } else if n > 0 {
      assert Zeros(n) + bs == Zeros(n);
      assert Zeros(n)[..n - 1] == Zeros(n - 1) == Zeros(n - 1) + [];
      ValueZeros(n - 1, []);
    }
  }

  /** A value below the width's bound is read back exactly. */
  lemma BERoundTrip(v: int, w: nat)
    requires 0 <= v < Pow256(w)
    ensures Value(BE(v, w)) == v
  {
    ValueOfBE(v, w);
    DivModUnique(v, Pow256(w), 0, v);
  }

  /** `u64le`, `i64le` and `u16le` identify exactly the values congruent modulo the width. */
  lemma LEInjectiveModulo(a: int, b: int, w: nat)
    ensures LE(a, w) == LE(b, w) <==> a % Pow256(w) == b % Pow256(w)
  {
    ValueOfLE(a, w);
    ValueOfLE(b, w);
    if a % Pow256(w) == b % Pow256(w) {
      LEOfValue(LE(a, w));
      LEOfValue(LE(b, w));
    }
  }

  lemma BEInjectiveModulo(a: int, b: int, w: nat)
    ensures BE(a, w) == BE(b, w) <==> a % Pow256(w) == b % Pow256(w)
  {
    ValueOfBE(a, w);
    ValueOfBE(b, w);
    if a % Pow256(w) == b % Pow256(w) {
      BEOfValue(BE(a, w));
      BEOfValue(BE(b, w));
    }
  }

  lemma {:induction false} Pow256Add(a: nat, b: nat)
    ensures Pow256(a + b) == Pow256(a) * Pow256(b)
  {
    if a == 0 {
      assert Pow256(0) * Pow256(b) == Pow256(b);
    } else {
      Pow256Add(a - 1, b);
      assert Pow256(a + b) == 256 * Pow256(a - 1 + b);
      assert 256 * (Pow256(a - 1) * Pow256(b)) == (256 * Pow256(a - 1)) * Pow256(b);
    }
  }

  lemma {:induction false} Pow256Monotone(a: nat, b: nat)
    requires a <= b
    ensures Pow256(a) <= Pow256(b)
  {
    if a < b {
      Pow256Monotone(a, b - 1);
    }
  }

  /** What is left after shifting out `w` bytes is zero exactly for values that fit. */
  predicate Fits(v: int, w: nat) {
    0 <= v < Pow256(w)
  }

  lemma FitsHalf(v: int, w: nat)
    requires w > 0
    ensures Fits(v, w) <==> Fits(v / 256, w - 1)
  {
  }

  /**
   `ube` (`packages/evm/src/adapter.ts`) and `beUint` (`packages/core/src/evm.ts`):
   fill an array from the last byte down, then reject a non-zero remainder.
   */
  method BigEndian(value: int, width: nat) returns (r: Option<Bytes>)
    ensures r == if Fits(value, width) then Some(BE(value, width)) else None
  {
    var v := value;
    var out := new byte[width](i => 0);
    var i := width;
    while i > 0
      invariant 0 <= i <= width
      invariant BE(v, i) + out[i..] == BE(value, width)
      invariant Fits(v, i) <==> Fits(value, width)
    {
      FitsHalf(v, i);
      ghost var before := out[i..];
      ghost var step := BE(v, i);
      i := i - 1;
      out[i] := v % 256;
      assert step == BE(v / 256, i) + [v % 256];
      assert out[i..] == [v % 256] + before;
      v := v / 256;
    }
    if v != 0 {
      return None;
    }
    assert out[..] == out[0..];
    assert BE(v, 0) + out[0..] == out[..];
    return Some(out[..]);
  }

  /** `u64le` and `i64le` (width 8): least significant byte first, silently truncating. */
  method LittleEndian(n: int, width: nat) returns (out: Bytes)
    ensures out == LE(n, width)
    ensures ValueLE(out) == n % Pow256(width)
  {
    var v := n;
    var a := new byte[width](i => 0);
    var i := 0;
    while i < width
      invariant 0 <= i <= width
      invariant a[..i] + LE(v, width - i) == LE(n, width)
    {
      ghost var before := a[..i];
      ghost var step := LE(v, width - i);
      a[i] := v % 256;
      assert step == [v % 256] + LE(v / 256, width - i - 1);
      assert a[..i + 1] == before + [v % 256];
      v := v / 256;
      i := i + 1;
    }
    assert a[..width] + LE(v, 0) == a[..];
    ValueOfLE(n, width);
    return a[..];
  }
}
