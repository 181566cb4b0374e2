/**
 A type-directed reader for the Solidity ABI, and what it says about the encoder:
 reading back an encoding returns the original values exactly when no value was
 clipped to fit its word (round trip), so the encoding is injective per type list.

 The reader is strict: padding must be zero and every offset is followed.
 */
module AbiDecode {
  import opened Bytes
  import opened Abi

  datatype AbiType =
    | UintT(width: nat)
    | AddressT
    | Bytes32T
    | BytesNT(n: nat)
    | BytesT
    | TupleT(fields: seq<AbiType>)
    | AddressArrayT
    | UintArrayT
    | BytesArrayT

  function TypeOf(v: AbiValue): (t: AbiType)
    decreases v, 1
  {
    match v
    case UintV(w, _) => UintT(w)
    case AddressV(_) => AddressT
    case Bytes32V(_) => Bytes32T
    case BytesNV(n, _) => BytesNT(n)
    case BytesV(_) => BytesT
    case TupleV(fs) => TupleT(TypesOf(fs))
    case AddressArrayV(_) => AddressArrayT
    case UintArrayV(_) => UintArrayT
    case BytesArrayV(_) => BytesArrayT
  }

  function TypesOf(vs: seq<AbiValue>): (ts: seq<AbiType>)
    ensures |ts| == |vs|
    ensures forall i :: 0 <= i < |vs| ==> ts[i] == TypeOf(vs[i])
    decreases vs, 0
  {
    seq(|vs|, i requires 0 <= i < |vs| => TypeOf(vs[i]))
  }

  predicate IsDynamicType(t: AbiType) {
    t.BytesT? || t.AddressArrayT? || t.UintArrayT? || t.BytesArrayT?
    || (t.TupleT? && exists i :: 0 <= i < |t.fields| && IsDynamicType(t.fields[i]))
  }

  lemma {:induction false} DynamicTypes(v: AbiValue)
    ensures IsDynamicType(TypeOf(v)) <==> IsDynamic(v)
  {
    if v.TupleV? {
      forall i | 0 <= i < |v.fields|
        ensures IsDynamicType(TypeOf(v).fields[i]) <==> IsDynamic(v.fields[i])
      {
        DynamicTypes(v.fields[i]);
      }
    }
  }

  // ------------------------------------------------------------------
  // The reader
  // ------------------------------------------------------------------

  function DecodeScalar(t: AbiType, w: Bytes): Option<AbiValue>
    requires |w| == 32
  {
    match t
    case UintT(width) => if Fits(Value(w), width) then Some(UintV(width, Value(w))) else None
    case AddressT => if w[..12] == Zeros(12) then Some(AddressV(w[12..])) else None
    case Bytes32T => Some(Bytes32V(w))
    case BytesNT(n) => if n <= 32 && w[n..] == Zeros(32 - n) then Some(BytesNV(n, w[..n])) else None
    case _ => None
  }

  /** One word per type from the `i`-th on, starting at byte `h`. */
  function DecodeScalars(ts: seq<AbiType>, i: nat, buf: Bytes, h: nat): Option<seq<AbiValue>>
    requires i <= |ts|
    decreases |ts| - i
  {
    if i == |ts| then Some([])
    else if |buf| < h + 32 then None
    else
      var head, rest := DecodeScalar(ts[i], buf[h..h + 32]), DecodeScalars(ts, i + 1, buf, h + 32);
      if head.None? || rest.None? then None else Some([head.value] + rest.value)
  }

  function DecodeBytes(buf: Bytes): Option<Bytes> {
    if |buf| < 32 then None
    else
      var n := Value(buf[..32]);
      if |buf| < PaddedLen(n) || buf[32 + n..PaddedLen(n)] != Zeros(RoundUp32(n) - n) then None
      else Some(buf[32..32 + n])
  }

  /** `k` elements of `bytes[]`, offsets from byte `h` on, relative to the start of `buf`. */
  function DecodeElements(k: nat, buf: Bytes, h: nat): Option<seq<Bytes>> {
    if k == 0 then Some([])
    else if |buf| < h + 32 || |buf| < Value(buf[h..h + 32]) then None
    else
      var head, rest := DecodeBytes(buf[Value(buf[h..h + 32])..]), DecodeElements(k - 1, buf, h + 32);
      if head.None? || rest.None? then None else Some([head.value] + rest.value)
  }

  function DecodeArray(t: AbiType, buf: Bytes): Option<AbiValue> {
    if |buf| < 32 then None
    else
      var k := Value(buf[..32]);
      match t
      case AddressArrayT =>
        var r := DecodeScalars(seq(k, i => AddressT), 0, buf, 32);
        if r.Some? && forall i :: 0 <= i < |r.value| ==> r.value[i].AddressV?
        then Some(AddressArrayV(seq(|r.value|, i requires 0 <= i < |r.value| => r.value[i].addr)))
        else None
      case UintArrayT =>
        var r := DecodeScalars(seq(k, i => UintT(32)), 0, buf, 32);
        if r.Some? && forall i :: 0 <= i < |r.value| ==> r.value[i].UintV?
        then Some(UintArrayV(seq(|r.value|, i requires 0 <= i < |r.value| => r.value[i].value)))
        else None
      case BytesArrayT =>
        var r := DecodeElements(k, buf[32..], 0);
        if r.Some? then Some(BytesArrayV(r.value)) else None
      case _ => None
  }

  function DecodeTail(t: AbiType, buf: Bytes): Option<AbiValue>
    decreases t, 1
  {
    match t
    case BytesT =>
      var r := DecodeBytes(buf);
      if r.Some? then Some(BytesV(r.value)) else None
    case TupleT(ts) =>
      var r := DecodeFrom(ts, 0, buf, 0);
      if r.Some? then Some(TupleV(r.value)) else None
    case _ => DecodeArray(t, buf)
  }

  /** Values of the types from the `i`-th on; their head starts at `h`, offsets count from `buf[0]`. */
  function DecodeFrom(ts: seq<AbiType>, i: nat, buf: Bytes, h: nat): Option<seq<AbiValue>>
    requires i <= |ts|
    decreases ts, 0, |ts| - i
  {
    if i == |ts| then Some([])
    else if IsDynamicType(ts[i]) then
      if |buf| < h + 32 || |buf| < Value(buf[h..h + 32]) then None
      else
        var head, rest := DecodeTail(ts[i], buf[Value(buf[h..h + 32])..]), DecodeFrom(ts, i + 1, buf, h + 32);
        if head.None? || rest.None? then None else Some([head.value] + rest.value)
    else if ts[i].TupleT? then
      var head, rest := DecodeScalars(ts[i].fields, 0, buf, h), DecodeFrom(ts, i + 1, buf, h + 32 * |ts[i].fields|);
      if head.None? || rest.None? then None else Some([TupleV(head.value)] + rest.value)
    else if |buf| < h + 32 then None
    else
      var head, rest := DecodeScalar(ts[i], buf[h..h + 32]), DecodeFrom(ts, i + 1, buf, h + 32);
      if head.None? || rest.None? then None else Some([head.value] + rest.value)
  }

  function DecodeSeq(ts: seq<AbiType>, buf: Bytes): Option<seq<AbiValue>> {
    DecodeFrom(ts, 0, buf, 0)
  }

  // ------------------------------------------------------------------
  // When the encoder keeps everything
  // ------------------------------------------------------------------

  /** The encoder cuts integers to 32 bytes, `bytesN` to 32 bytes and lengths to 32 bits. */
  predicate Lossless(v: AbiValue) {
    match v
    case UintV(_, x) => x < Pow256(32)
    case BytesNV(n, _) => n <= 32
    case BytesV(b) => |b| < Pow256(4)
    case BytesArrayV(bs) => forall i :: 0 <= i < |bs| ==> |bs[i]| < Pow256(4)
    case TupleV(fs) => forall i :: 0 <= i < |fs| ==> Lossless(fs[i])
    case _ => true
  }

  predicate AllLossless(vs: seq<AbiValue>) {
    forall i :: 0 <= i < |vs| ==> Lossless(vs[i])
  }

  // ------------------------------------------------------------------
  // Round trip
  // ------------------------------------------------------------------

  lemma ConsInjective<T>(x: T, xs: seq<T>, y: T, ys: seq<T>)
    ensures [x] + xs == [y] + ys <==> x == y && xs == ys
  {
    if [x] + xs == [y] + ys {
      assert ([x] + xs)[0] == x && ([x] + xs)[1..] == xs;
      assert ([y] + ys)[0] == y && ([y] + ys)[1..] == ys;
    }
  }

  /** An integer's word holds its low 256 bits, whatever width it was given. */
  lemma UintWord(width: nat, x: int)
    requires Fits(x, width)
    ensures EncodeStatic(UintV(width, x)) == Word(x)
  {
    hide BE, Pow256;
    if width >= 32 {
      BESuffix(x, width, 32);
      assert (Zeros(32) + BE(x, width))[width..] == BE(x, width)[width - 32..];
    } else {
      BEWiden(x, width, 32);
      assert (Zeros(32) + BE(x, width))[width..] == Zeros(32 - width) + BE(x, width);
    }
  }

  lemma ScalarRoundTrip(v: AbiValue)
    requires ScalarEncodable(v)
    ensures DecodeScalar(TypeOf(v), EncodeStatic(v)) == Some(v) <==> Lossless(v)
  {
    hide BE, Pow256, Value;
    match v {
      case UintV(width, x) =>
        UintWord(width, x);
        ValueOfBE(x, 32);
        if x < Pow256(32) {
          BERoundTrip(x, 32);
        }
      case AddressV(a) =>
        var w := EncodeStatic(v);
        assert w[..12] == Zeros(12) && w[12..] == a;
      case Bytes32V(b) =>
        assert High32(b) == b;
      case BytesNV(n, b) =>
        if n <= 32 {
          var w := EncodeStatic(v);
          assert w[..n] == b && w[n..] == Zeros(32 - n);
        }
    }
  }

  lemma {:induction false} ScalarsRoundTrip(vs: seq<AbiValue>, i: nat, buf: Bytes, h: nat)
    requires i <= |vs| && AllScalarEncodable(vs)
    requires At(buf, h, ScalarWords(vs, i))
    ensures DecodeScalars(TypesOf(vs), i, buf, h) == Some(vs[i..])
       <==> forall k :: i <= k < |vs| ==> Lossless(vs[k])
    decreases |vs| - i
  {
    hide DecodeScalar, EncodeStatic, TypeOf, Lossless, ScalarEncodable;
    if i < |vs| {
      AtSplit(buf, h, EncodeStatic(vs[i]), ScalarWords(vs, i + 1));
      ScalarRoundTrip(vs[i]);
      ScalarsRoundTrip(vs, i + 1, buf, h + 32);
      assert vs[i..] == [vs[i]] + vs[i + 1..];
      var head, rest := DecodeScalar(TypeOf(vs[i]), buf[h..h + 32]), DecodeScalars(TypesOf(vs), i + 1, buf, h + 32);
      if head.Some? && rest.Some? {
        ConsInjective(head.value, rest.value, vs[i], vs[i + 1..]);
      }
    } else {
      assert vs[i..] == [];
    }
  }

  lemma BytesRoundTrip(data: Bytes, buf: Bytes)
    requires At(buf, 0, EncodeBytes(data))
    ensures DecodeBytes(buf) == Some(data) <==> |data| < Pow256(4)
  {
    hide BE, Pow256, Value;
    var n := |data|;
    var pad := Zeros(RoundUp32(n) - n);
    AtSplit(buf, 0, Zeros(28) + BE(n, 4) + data, pad);
    AtSplit(buf, 0, Zeros(28) + BE(n, 4), data);
    ValueZeros(28, BE(n, 4));
    ValueOfBE(n, 4);
    if n < Pow256(4) {
      BERoundTrip(n, 4);
      assert Value(buf[..32]) == n;
    }
  }

  lemma {:induction false} ElementsRoundTrip(datas: seq<Bytes>, i: nat, buf: Bytes, h: nat, off: nat)
    requires i <= |datas| && |buf| < Pow256(32)
    requires At(buf, h, ElementHeads(datas, i, off)) && At(buf, off, EncodeEach(datas, i))
    ensures DecodeElements(|datas| - i, buf, h) == Some(datas[i..])
       <==> forall k :: i <= k < |datas| ==> |datas[k]| < Pow256(4)
    decreases |datas| - i
  {
    hide BE, Pow256, Value, EncodeBytes, DecodeBytes;
    if i < |datas| {
      var e := EncodeBytes(datas[i]);
      AtSplit(buf, h, Word(off), ElementHeads(datas, i + 1, off + |e|));
      AtSplit(buf, off, e, EncodeEach(datas, i + 1));
      BERoundTrip(off, 32);
      AtDrop(buf, 0, off, e);
      BytesRoundTrip(datas[i], buf[off..]);
      ElementsRoundTrip(datas, i + 1, buf, h + 32, off + |e|);
      assert datas[i..] == [datas[i]] + datas[i + 1..];
      var head, rest := DecodeBytes(buf[off..]), DecodeElements(|datas| - i - 1, buf, h + 32);
      if head.Some? && rest.Some? {
        ConsInjective(head.value, rest.value, datas[i], datas[i + 1..]);
      }
    } else {
      assert datas[i..] == [];
    }
  }

  lemma AddressArrayRoundTrip(addrs: seq<Bytes>, buf: Bytes)
    requires Encodable(AddressArrayV(addrs)) && |buf| < Pow256(32)
    requires At(buf, 0, EncodeArray(AddressArrayV(addrs)))
    ensures DecodeArray(AddressArrayT, buf) == Some(AddressArrayV(addrs))
  {
    hide BE, Pow256, Value, DecodeScalars, ScalarWords;
    var vs := AddressValues(addrs);
    AddressesEncodable(addrs);
    AtSplit(buf, 0, Word(|addrs|), ScalarWords(vs));
    BERoundTrip(|addrs|, 32);
    ScalarsRoundTrip(vs, 0, buf, 32);
    assert vs[0..] == vs;
    assert TypesOf(vs) == seq(|addrs|, i => AddressT);
    assert seq(|vs|, i requires 0 <= i < |vs| => vs[i].addr) == addrs;
  }

  lemma UintArrayRoundTrip(xs: seq<int>, buf: Bytes)
    requires Encodable(UintArrayV(xs)) && |buf| < Pow256(32)
    requires At(buf, 0, EncodeArray(UintArrayV(xs)))
    ensures DecodeArray(UintArrayT, buf) == Some(UintArrayV(xs))
  {
    hide BE, Pow256, Value, DecodeScalars, ScalarWords;
    var vs := UintValues(xs);
    UintsEncodable(xs);
    AtSplit(buf, 0, Word(|xs|), ScalarWords(vs));
    BERoundTrip(|xs|, 32);
    ScalarsRoundTrip(vs, 0, buf, 32);
    assert vs[0..] == vs;
    assert TypesOf(vs) == seq(|xs|, i => UintT(32));
    assert seq(|vs|, i requires 0 <= i < |vs| => vs[i].value) == xs;
  }

  lemma BytesArrayRoundTrip(datas: seq<Bytes>, buf: Bytes)
    requires |buf| < Pow256(32)
    requires At(buf, 0, EncodeArray(BytesArrayV(datas)))
    ensures DecodeArray(BytesArrayT, buf) == Some(BytesArrayV(datas)) <==> Lossless(BytesArrayV(datas))
  {
    hide BE, Pow256, Value, DecodeElements, ElementHeads, EncodeEach;
    var n := |datas|;
    var hs, ts := ElementHeads(datas, 0, 32 * n), EncodeEach(datas);
    AtSplit(buf, 0, Word(n) + hs, ts);
    AtSplit(buf, 0, Word(n), hs);
    BERoundTrip(n, 32);
    AtDrop(buf, 0, 32, hs);
    AtDrop(buf, 32 * n, 32, ts);
    ElementsRoundTrip(datas, 0, buf[32..], 0, 32 * n);
    assert datas[0..] == datas;
  }

  lemma {:induction false} TailRoundTrip(v: AbiValue, buf: Bytes)
    requires IsDynamic(v) && Encodable(v) && |buf| < Pow256(32)
    requires At(buf, 0, Tail(v))
    ensures DecodeTail(TypeOf(v), buf) == Some(v) <==> Lossless(v)
    decreases v, 1
  {
    hide BE, Pow256, Value, DecodeFrom, DecodeArray, DecodeBytes, EncodeBytes, EncodeArray, Heads, Tails;
    match v {
      case BytesV(b) => BytesRoundTrip(b, buf);
      case AddressArrayV(addrs) => AddressArrayRoundTrip(addrs, buf);
      case UintArrayV(xs) => UintArrayRoundTrip(xs, buf);
      case BytesArrayV(datas) => BytesArrayRoundTrip(datas, buf);
      case TupleV(fs) =>
        AtSplit(buf, 0, Heads(fs, 0, HeadSize(fs)), Tails(fs));
        FromRoundTrip(fs, 0, buf, 0, HeadSize(fs));
        assert fs[0..] == fs;
    }
  }

  /** What the reader makes of one head entry whose tail, if any, starts at `off`. */
  function DecodeEntry(t: AbiType, buf: Bytes, h: nat): Option<AbiValue> {
    if IsDynamicType(t) then
      if |buf| < h + 32 || |buf| < Value(buf[h..h + 32]) then None
      else DecodeTail(t, buf[Value(buf[h..h + 32])..])
    else if t.TupleT? then
      var r := DecodeScalars(t.fields, 0, buf, h);
      if r.Some? then Some(TupleV(r.value)) else None
    else if |buf| < h + 32 then None
    else DecodeScalar(t, buf[h..h + 32])
  }

  function EntryLen(t: AbiType): nat {
    if t.TupleT? && !IsDynamicType(t) then 32 * |t.fields| else 32
  }

  lemma EntryLenOfType(v: AbiValue)
    ensures EntryLen(TypeOf(v)) == HeadLen(v)
  {
    DynamicTypes(v);
  }

  lemma DecodeFromStep(ts: seq<AbiType>, i: nat, buf: Bytes, h: nat)
    requires i < |ts|
    ensures DecodeFrom(ts, i, buf, h)
         == var head, rest := DecodeEntry(ts[i], buf, h), DecodeFrom(ts, i + 1, buf, h + EntryLen(ts[i]));
            if head.None? || rest.None? then None else Some([head.value] + rest.value)
  {
    hide IsDynamicType, DecodeTail, DecodeScalars, DecodeScalar, Value;
  }

  lemma StaticEntryRoundTrip(v: AbiValue, buf: Bytes, h: nat)
    requires !IsDynamic(v) && Encodable(v)
    requires At(buf, h, StaticHead(v))
    ensures DecodeEntry(TypeOf(v), buf, h) == Some(v) <==> Lossless(v)
  {
    hide BE, Pow256, Value, DecodeScalars, DecodeScalar, ScalarWords, EncodeStatic;
    DynamicTypes(v);
    if v.TupleV? {
      ScalarsRoundTrip(v.fields, 0, buf, h);
      assert v.fields[0..] == v.fields;
    } else {
      ScalarRoundTrip(v);
    }
  }

  /** The head entry of `v` sits at `h` and its tail, if it has one, at `off`. */
  ghost predicate EntryAt(v: AbiValue, buf: Bytes, h: nat, off: nat) {
    if IsDynamic(v) then At(buf, h, Word(off)) && At(buf, off, Tail(v)) else At(buf, h, StaticHead(v))
  }

  function NextOffset(v: AbiValue, off: nat): nat {
    if IsDynamic(v) then off + |Tail(v)| else off
  }

  lemma PlacementStep(vs: seq<AbiValue>, i: nat, buf: Bytes, h: nat, off: nat)
    requires i < |vs| && At(buf, h, Heads(vs, i, off)) && At(buf, off, Tails(vs, i))
    ensures EntryAt(vs[i], buf, h, off)
    ensures At(buf, h + HeadLen(vs[i]), Heads(vs, i + 1, NextOffset(vs[i], off)))
    ensures At(buf, NextOffset(vs[i], off), Tails(vs, i + 1))
    ensures NextOffset(vs[i], off) + |Tails(vs, i + 1)| == off + |Tails(vs, i)|
    ensures HeadLen(vs[i]) + HeadSize(vs, i + 1) == HeadSize(vs, i)
  {
    hide BE, Tail, StaticHead, IsDynamic;
    if IsDynamic(vs[i]) {
      AtSplit(buf, h, Word(off), Heads(vs, i + 1, off + |Tail(vs[i])|));
      AtSplit(buf, off, Tail(vs[i]), Tails(vs, i + 1));
    } else {
      AtSplit(buf, h, StaticHead(vs[i]), Heads(vs, i + 1, off));
    }
  }

  lemma {:induction false} EntryRoundTrip(v: AbiValue, buf: Bytes, h: nat, off: nat)
    requires Encodable(v) && |buf| < Pow256(32) && EntryAt(v, buf, h, off)
    ensures DecodeEntry(TypeOf(v), buf, h) == Some(v) <==> Lossless(v)
    decreases v, 2
  {
    hide BE, Pow256, Value, DecodeTail, Tail, Encodable, StaticHead;
    if IsDynamic(v) {
      DynamicTypes(v);
      BERoundTrip(off, 32);
      AtDrop(buf, 0, off, Tail(v));
      TailRoundTrip(v, buf[off..]);
    } else {
      StaticEntryRoundTrip(v, buf, h);
    }
  }

  lemma {:induction false} FromRoundTrip(vs: seq<AbiValue>, i: nat, buf: Bytes, h: nat, off: nat)
    requires i <= |vs| && AllEncodable(vs) && |buf| < Pow256(32)
    requires At(buf, h, Heads(vs, i, off)) && At(buf, off, Tails(vs, i))
    ensures DecodeFrom(TypesOf(vs), i, buf, h) == Some(vs[i..])
       <==> forall k :: i <= k < |vs| ==> Lossless(vs[k])
    decreases vs, 0, |vs| - i
  {
    hide Pow256, At, Heads, Tails, Encodable, DecodeEntry, TypeOf, Lossless, HeadLen, EntryLen, NextOffset, EntryAt;
    var ts := TypesOf(vs);
    if i == |vs| {
      assert vs[i..] == [];
    } else {
      var v := vs[i];
      DecodeFromStep(ts, i, buf, h);
      EntryLenOfType(v);
      PlacementStep(vs, i, buf, h, off);
      EntryRoundTrip(v, buf, h, off);
      FromRoundTrip(vs, i + 1, buf, h + HeadLen(v), NextOffset(v, off));
      assert vs[i..] == [v] + vs[i + 1..];
      var head, rest := DecodeEntry(ts[i], buf, h), DecodeFrom(ts, i + 1, buf, h + EntryLen(ts[i]));
      if head.Some? && rest.Some? {
        ConsInjective(head.value, rest.value, v, vs[i + 1..]);
      }
    }
  }

  /**
   Every encodable list reads back as itself exactly when it is lossless, at any nesting
   depth and array length. Data after the encoding does not disturb the reader.
   */
  lemma AbiRoundTrip(vs: seq<AbiValue>, suffix: Bytes)
    requires AllEncodable(vs) && |EncodeSeq(vs) + suffix| < Pow256(32)
    ensures DecodeSeq(TypesOf(vs), EncodeSeq(vs) + suffix) == Some(vs) <==> AllLossless(vs)
  {
    hide Pow256, Heads, Tails, DecodeFrom, Encodable, Lossless, TypesOf;
    var buf := EncodeSeq(vs) + suffix;
    AtSplit(buf, 0, Heads(vs, 0, HeadSize(vs)), Tails(vs));
    FromRoundTrip(vs, 0, buf, 0, HeadSize(vs));
    assert vs[0..] == vs;
  }

  /** No two lossless argument lists of the same types share an encoding. */
  lemma AbiInjective(us: seq<AbiValue>, vs: seq<AbiValue>)
    requires AllEncodable(us) && AllLossless(us) && AllEncodable(vs) && AllLossless(vs)
    requires |EncodeSeq(us)| < Pow256(32)
    requires TypesOf(us) == TypesOf(vs) && EncodeSeq(us) == EncodeSeq(vs)
    ensures us == vs
  {
    hide *;
    AbiRoundTrip(us, []);
    AbiRoundTrip(vs, []);
    assert EncodeSeq(us) + [] == EncodeSeq(us);
  }

  lemma SingleScalar(v: AbiValue)
    requires IsScalar(v)
    ensures EncodeSeq([v]) == EncodeStatic(v)
  {
    hide EncodeStatic;
    var vs := [v];
    assert Heads(vs, 0, HeadSize(vs)) == EncodeStatic(v) + Heads(vs, 1, HeadSize(vs));
    assert Tails(vs, 0) == Tails(vs, 1) == [];
  }

  /**
   The losing inputs are real: an integer of 2^256 or more, given a wider type, is laid
   out exactly as its residue, which is a different value of the same type.
   */
  lemma WideUintCollides(width: nat, x: int)
    requires Fits(x, width) && x >= Pow256(32)
    ensures var low := x % Pow256(32);
            Fits(low, width) && low != x && EncodeSeq([UintV(width, x)]) == EncodeSeq([UintV(width, low)])
  {
    hide BE, Pow256, EncodeSeq, EncodeStatic;
    var p, low := Pow256(32), x % Pow256(32);
    SingleScalar(UintV(width, x));
    SingleScalar(UintV(width, low));
    UintWord(width, x);
    UintWord(width, low);
    DivModUnique(low, p, 0, low);
    BEInjectiveModulo(x, low, 32);
  }
}
