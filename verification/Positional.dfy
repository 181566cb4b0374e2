/**
 Positional notation in any base, most significant digit first, and the conversion that
 base58 is an instance of: keep the leading zeros, convert the rest as a number.
 */
module Positional {
  import Bytes

  type Base = b: nat | b >= 2 witness 2

  ghost predicate Digits(ds: seq<nat>, b: Base) {
    forall i :: 0 <= i < |ds| ==> ds[i] < b
  }

  function Val(ds: seq<nat>, b: Base): nat {
    if ds == [] then 0 else Val(ds[..|ds| - 1], b) * b + ds[|ds| - 1]
  }

  /** The digits of `v` without leading zeros. */
  function Shortest(v: nat, b: Base): seq<nat> {
    if v == 0 then [] else Shortest(v / b, b) + [v % b]
  }

  function LeadingZeros(ds: seq<nat>): (n: nat)
    ensures n <= |ds|
  {
    if ds == [] || ds[0] != 0 then 0 else 1 + LeadingZeros(ds[1..])
  }

  function ZeroDigits(n: nat): (zs: seq<nat>)
    ensures |zs| == n && forall i :: 0 <= i < n ==> zs[i] == 0
  {
    seq(n, i => 0)
  }

  function Convert(ds: seq<nat>, a: Base, b: Base): seq<nat> {
    ZeroDigits(LeadingZeros(ds)) + Shortest(Val(ds, a), b)
  }

  lemma Split(h: nat, d: nat, b: Base)
    requires d < b
    ensures (h * b + d) / b == h && (h * b + d) % b == d
  {
    Bytes.DivModUnique(h * b + d, b, h, d);
  }

  lemma ValSnoc(ds: seq<nat>, d: nat, b: Base)
    ensures Val(ds + [d], b) == Val(ds, b) * b + d
  {
    assert (ds + [d])[..|ds|] == ds;
  }

  lemma Halved(v: nat, b: Base)
    requires v > 0
    ensures v / b < v && v == (v / b) * b + v % b
  {
  }

  lemma {:induction false} ShortestIs(v: nat, b: Base)
    ensures Digits(Shortest(v, b), b)
    ensures Val(Shortest(v, b), b) == v
    ensures v > 0 ==> Shortest(v, b) != [] && Shortest(v, b)[0] != 0
  {
    if v > 0 {
      hide Val;
      Halved(v, b);
      var h, d := v / b, v % b;
      ShortestIs(h, b);
      ValSnoc(Shortest(h, b), d, b);
      assert Shortest(v, b) == Shortest(h, b) + [d];
    }
  }

  /** Digits without a leading zero are the shortest digits of their value. */
  lemma {:induction false} ShortestOfVal(ds: seq<nat>, b: Base)
    requires Digits(ds, b) && (ds == [] || ds[0] != 0)
    ensures Shortest(Val(ds, b), b) == ds
    ensures ds != [] ==> Val(ds, b) > 0
  {
    if ds != [] {
      var n := |ds| - 1;
      ShortestOfVal(ds[..n], b);
      Split(Val(ds[..n], b), ds[n], b);
      assert ds == ds[..n] + [ds[n]];
      if n > 0 {
        assert Val(ds[..n], b) * b > 0;
      }
    }
  }

  lemma {:induction false} ValSkipsZeros(n: nat, ds: seq<nat>, b: Base)
    ensures Val(ZeroDigits(n) + ds, b) == Val(ds, b)
    decreases |ds|, n
  {
    var zs := ZeroDigits(n);
    if ds != [] {
      assert (zs + ds)[..n + |ds| - 1] == zs + ds[..|ds| - 1];
      ValSkipsZeros(n, ds[..|ds| - 1], b);
    } else if n > 0 {
      assert zs + ds == zs;
      assert zs[..n - 1] == ZeroDigits(n - 1) == ZeroDigits(n - 1) + [];
      ValSkipsZeros(n - 1, [], b);
    }
  }

  lemma {:induction false} LeadingZerosCounted(ds: seq<nat>)
    ensures forall i :: 0 <= i < LeadingZeros(ds) ==> ds[i] == 0
    ensures LeadingZeros(ds) < |ds| ==> ds[LeadingZeros(ds)] != 0
  {
    if ds != [] && ds[0] == 0 {
      LeadingZerosCounted(ds[1..]);
      assert forall i :: 0 < i < LeadingZeros(ds) ==> ds[i] == ds[1..][i - 1];
    }
  }

  lemma LeadingZerosAre(ds: seq<nat>)
    ensures ds == ZeroDigits(LeadingZeros(ds)) + ds[LeadingZeros(ds)..]
    ensures LeadingZeros(ds) < |ds| ==> ds[LeadingZeros(ds)] != 0
  {
    hide LeadingZeros;
    LeadingZerosCounted(ds);
  }

  lemma {:induction false} LeadingZerosOf(n: nat, ds: seq<nat>)
    requires ds == [] || ds[0] != 0
    ensures LeadingZeros(ZeroDigits(n) + ds) == n
  {
    if n > 0 {
      assert (ZeroDigits(n) + ds)[1..] == ZeroDigits(n - 1) + ds;
      LeadingZerosOf(n - 1, ds);
    } else {
      assert ZeroDigits(0) + ds == ds;
    }
  }

  /** Stripping the leading zeros leaves the shortest digits of the value. */
  lemma StrippedIsShortest(ds: seq<nat>, b: Base)
    requires Digits(ds, b)
    ensures ds[LeadingZeros(ds)..] == Shortest(Val(ds, b), b)
  {
    hide Val, Shortest, LeadingZeros;
    var n := LeadingZeros(ds);
    LeadingZerosAre(ds);
    ValSkipsZeros(n, ds[n..], b);
    ShortestOfVal(ds[n..], b);
  }

  lemma ConvertKeeps(ds: seq<nat>, a: Base, b: Base)
    ensures Digits(Convert(ds, a, b), b)
    ensures LeadingZeros(Convert(ds, a, b)) == LeadingZeros(ds)
    ensures Val(Convert(ds, a, b), b) == Val(ds, a)
  {
    hide Val, LeadingZeros;
    var v := Val(ds, a);
    ShortestIs(v, b);
    LeadingZerosOf(LeadingZeros(ds), Shortest(v, b));
    ValSkipsZeros(LeadingZeros(ds), Shortest(v, b), b);
  }

  /** Converting to another base and back is the identity on every digit string. */
  lemma ConvertRoundTrip(ds: seq<nat>, a: Base, b: Base)
    requires Digits(ds, a)
    ensures Convert(Convert(ds, a, b), b, a) == ds
  {
    hide Val, LeadingZeros, Shortest;
    ConvertKeeps(ds, a, b);
    StrippedIsShortest(ds, a);
    LeadingZerosAre(ds);
  }

  lemma {:induction false} ValIsValue(bs: seq<nat>)
    requires Digits(bs, 256)
    ensures Val(bs, 256) == Bytes.Value(bs)
  {
    if bs != [] {
      ValIsValue(bs[..|bs| - 1]);
    }
  }
}
