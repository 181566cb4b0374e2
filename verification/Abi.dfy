/**
 The minimal ABI coder of `packages/evm/src/adapter.ts` (lines 982-1116): scalars,
 `bytes`, one-dimensional arrays and nested tuples, laid out head first and tails
 after (Solidity Contract ABI Specification, "Formal Specification of the Encoding").

 The source concatenates hex text; two hex digits are one byte here. An address
 argument is the byte string its hex digits spell, so text that is not forty hex
 digits is a byte string whose length is not 20.
 */
module Abi {
  import opened Bytes

  datatype AbiValue =
    | UintV(width: nat, value: int)
    | AddressV(addr: Bytes)
    | Bytes32V(word: Bytes)
    | BytesNV(n: nat, fixed: Bytes)
    | BytesV(data: Bytes)
    | TupleV(fields: seq<AbiValue>)
    | AddressArrayV(addrs: seq<Bytes>)
    | UintArrayV(values: seq<int>)
    | BytesArrayV(datas: seq<Bytes>)

  predicate IsScalar(v: AbiValue) {
    v.UintV? || v.AddressV? || v.Bytes32V? || v.BytesNV?
  }

  predicate IsArray(v: AbiValue) {
    v.AddressArrayV? || v.UintArrayV? || v.BytesArrayV?
  }

  predicate IsDynamic(v: AbiValue) {
    v.BytesV? || IsArray(v) || (v.TupleV? && exists i :: 0 <= i < |v.fields| && IsDynamic(v.fields[i]))
  }

  // ------------------------------------------------------------------
  // When the coder throws
  // ------------------------------------------------------------------

  /** `encodeStatic` returns rather than throws. */
  predicate ScalarEncodable(v: AbiValue) {
    match v
    case UintV(w, x) => Fits(x, w)
    case AddressV(a) => |a| == 20
    case Bytes32V(b) => |b| == 32
    case BytesNV(n, b) => |b| == n
    case _ => false
  }

  predicate AllScalarEncodable(vs: seq<AbiValue>) {
    forall i :: 0 <= i < |vs| ==> ScalarEncodable(vs[i])
  }

  predicate Encodable(v: AbiValue) {
    match v
    case TupleV(fs) =>
      if IsDynamic(v) then forall i :: 0 <= i < |fs| ==> Encodable(fs[i]) else AllScalarEncodable(fs)
    case BytesV(_) => true
    case BytesArrayV(_) => true
    case AddressArrayV(addrs) => forall i :: 0 <= i < |addrs| ==> |addrs[i]| == 20
    case UintArrayV(xs) => forall i :: 0 <= i < |xs| ==> Fits(xs[i], 32)
    case _ => ScalarEncodable(v)
  }

  predicate AllEncodable(vs: seq<AbiValue>) {
    forall i :: 0 <= i < |vs| ==> Encodable(vs[i])
  }

  // ------------------------------------------------------------------
  // The encoding. Recursive functions over a list take the index of the first
  // element still to be encoded.
  // ------------------------------------------------------------------

  function Word(n: int): (w: Bytes)
    ensures |w| == 32
  {
    BE(n, 32)
  }

  /** `padStart(64, "0").slice(-64)`: left-pad to a word, keep the last 32 bytes. */
  function Low32(bs: Bytes): (w: Bytes)
    ensures |w| == 32
  {
    (Zeros(32) + bs)[|bs|..]
  }

  /** `(hex + "0".repeat(64)).slice(0, 64)`: right-pad to a word, keep the first 32 bytes. */
  function High32(bs: Bytes): (w: Bytes)
    ensures |w| == 32
  {
    (bs + Zeros(32))[..32]
  }

  /** One head word; the word is arbitrary where `encodeStatic` throws. */
  function EncodeStatic(v: AbiValue): (w: Bytes)
    ensures |w| == 32
  {
    match v
    case UintV(width, x) => Low32(BE(x, width))
    case AddressV(a) => Low32(a)
    case Bytes32V(b) => High32(b)
    case BytesNV(_, b) => High32(b)
    case _ => Zeros(32)
  }

  function ScalarWords(vs: seq<AbiValue>, i: nat := 0): (ws: Bytes)
    requires i <= |vs|
    ensures |ws| == 32 * (|vs| - i)
    decreases |vs| - i
  {
    if i == |vs| then [] else EncodeStatic(vs[i]) + ScalarWords(vs, i + 1)
  }

  function RoundUp32(n: nat): (m: nat)
    ensures n <= m < n + 32 && m % 32 == 0
  {
    (n + 31) / 32 * 32
  }

  /** `paddedLen`: length word plus the padded data. */
  function PaddedLen(n: nat): nat {
    32 + RoundUp32(n)
  }

  /** `encodeBytes`: `setUint32(28, len)` keeps the low 32 bits of the length. */
  function EncodeBytes(data: Bytes): (enc: Bytes)
    ensures |enc| == PaddedLen(|data|)
  {
    Zeros(28) + BE(|data|, 4) + data + Zeros(RoundUp32(|data|) - |data|)
  }

  function EncodeEach(datas: seq<Bytes>, i: nat := 0): Bytes
    requires i <= |datas|
    decreases |datas| - i
  {
    if i == |datas| then [] else EncodeBytes(datas[i]) + EncodeEach(datas, i + 1)
  }

  /** Offset words of `bytes[]` elements from the `i`-th on, whose tail starts at `off`. */
  function ElementHeads(datas: seq<Bytes>, i: nat, off: nat): (h: Bytes)
    requires i <= |datas|
    ensures |h| == 32 * (|datas| - i)
    decreases |datas| - i
  {
    if i == |datas| then [] else Word(off) + ElementHeads(datas, i + 1, off + |EncodeBytes(datas[i])|)
  }

  function AddressValues(addrs: seq<Bytes>): (vs: seq<AbiValue>)
    ensures |vs| == |addrs|
  {
    seq(|addrs|, i requires 0 <= i < |addrs| => AddressV(addrs[i]))
  }

  function UintValues(xs: seq<int>): (vs: seq<AbiValue>)
    ensures |vs| == |xs|
  {
    seq(|xs|, i requires 0 <= i < |xs| => UintV(32, xs[i]))
  }

  function EncodeArray(v: AbiValue): Bytes
    requires IsArray(v)
  {
    match v
    case AddressArrayV(addrs) => Word(|addrs|) + ScalarWords(AddressValues(addrs))
    case UintArrayV(xs) => Word(|xs|) + ScalarWords(UintValues(xs))
    case BytesArrayV(datas) => Word(|datas|) + ElementHeads(datas, 0, 32 * |datas|) + EncodeEach(datas)
  }

  /** Bytes a value takes in the head: one word, or one per field of a static tuple. */
  function HeadLen(v: AbiValue): nat {
    if v.TupleV? && !IsDynamic(v) then 32 * |v.fields| else 32
  }

  function HeadSize(vs: seq<AbiValue>, i: nat := 0): nat
    requires i <= |vs|
    decreases |vs| - i
  {
    if i == |vs| then 0 else HeadLen(vs[i]) + HeadSize(vs, i + 1)
  }

  /** What a value without a tail contributes to the head. */
  function StaticHead(v: AbiValue): (h: Bytes)
    requires !IsDynamic(v)
    ensures |h| == HeadLen(v)
  {
    if v.TupleV? then ScalarWords(v.fields) else EncodeStatic(v)
  }

  function Tail(v: AbiValue): Bytes
    requires IsDynamic(v)
    decreases v, 3
  {
    match v
    case BytesV(b) => EncodeBytes(b)
    case TupleV(fs) => EncodeSeq(fs)
    case _ => EncodeArray(v)
  }

  /** Head of the values from the `i`-th on, when their tails start at `off`. */
  function Heads(vs: seq<AbiValue>, i: nat, off: nat): (hs: Bytes)
    requires i <= |vs|
    ensures |hs| == HeadSize(vs, i)
    decreases vs, 1, |vs| - i
  {
    if i == |vs| then []
    else if IsDynamic(vs[i]) then Word(off) + Heads(vs, i + 1, off + |Tail(vs[i])|)
    else StaticHead(vs[i]) + Heads(vs, i + 1, off)
  }

  function Tails(vs: seq<AbiValue>, i: nat := 0): Bytes
    requires i <= |vs|
    decreases vs, 0, |vs| - i
  {
    if i == |vs| then []
    else if IsDynamic(vs[i]) then Tail(vs[i]) + Tails(vs, i + 1)
    else Tails(vs, i + 1)
  }

  function EncodeSeq(vs: seq<AbiValue>): Bytes
    decreases vs, 2
  {
    Heads(vs, 0, HeadSize(vs)) + Tails(vs)
  }

  // ------------------------------------------------------------------
  // The source's loops
  // ------------------------------------------------------------------

  method AbiStatic(v: AbiValue) returns (r: Option<Bytes>)
    ensures r == if ScalarEncodable(v) then Some(EncodeStatic(v)) else None
  {
    match v {
      case UintV(width, x) =>
        var u := BigEndian(x, width);
        if u.None? {
          return None;
        }
        return Some(Low32(u.value));
      case AddressV(a) =>
        return if |a| == 20 then Some(Low32(a)) else None;
      case Bytes32V(b) =>
        assert |b| == 32 ==> High32(b) == b;
        return if |b| == 32 then Some(b) else None;
      case BytesNV(n, b) =>
        return if |b| == n then Some(High32(b)) else None;
      case _ =>
        return None;
    }
  }

  /** The loop that pushes every field of a static tuple (line 1086). */
  method AbiStatics(vs: seq<AbiValue>) returns (r: Option<Bytes>)
    ensures r == if AllScalarEncodable(vs) then Some(ScalarWords(vs)) else None
  {
    hide Pow256, EncodeStatic;
    var out: Bytes := [];
    for i := 0 to |vs|
      invariant forall k :: 0 <= k < i ==> ScalarEncodable(vs[k])
      invariant out + ScalarWords(vs, i) == ScalarWords(vs)
    {
      var w := AbiStatic(vs[i]);
      if w.None? {
        return None;
      }
      Assoc(out, w.value, ScalarWords(vs, i + 1));
      out := out + w.value;
    }
    assert out + [] == out;
    return Some(out);
  }

  /** `toHex(ube(n, 32))` for a size that fits a word. */
  method OffsetWord(n: nat) returns (w: Bytes)
    requires n < Pow256(32)
    ensures w == Word(n)
  {
    var r := BigEndian(n, 32);
    w := r.value;
  }

  lemma ElementStep(datas: seq<Bytes>, i: nat, head: Bytes, tails: Bytes, off: nat)
    requires i < |datas|
    ensures head + ElementHeads(datas, i, off)
         == head + Word(off) + ElementHeads(datas, i + 1, off + |EncodeBytes(datas[i])|)
    ensures tails + EncodeEach(datas, i) == tails + EncodeBytes(datas[i]) + EncodeEach(datas, i + 1)
  {
    hide Word, EncodeBytes;
    Assoc(head, Word(off), ElementHeads(datas, i + 1, off + |EncodeBytes(datas[i])|));
    Assoc(tails, EncodeBytes(datas[i]), EncodeEach(datas, i + 1));
  }

  lemma BytesArrayParts(datas: seq<Bytes>, off: nat)
    ensures ElementHeads(datas, |datas|, off) == [] && EncodeEach(datas, |datas|) == []
    ensures EncodeArray(BytesArrayV(datas))
         == Word(|datas|) + ElementHeads(datas, 0, 32 * |datas|) + EncodeEach(datas)
  {
  }

  /** `encodeArray` on `bytes[]`: every element's offset is the running `tailBytes`. */
  method AbiBytesArray(datas: seq<Bytes>) returns (r: Bytes)
    requires |EncodeArray(BytesArrayV(datas))| < Pow256(32)
    ensures r == EncodeArray(BytesArrayV(datas))
  {
    hide *;
    BytesArrayParts(datas, 0);
    var lenWord := OffsetWord(|datas|);
    var head: Bytes, tails: Bytes, tailBytes := [], [], 0;
    ghost var next := 32 * |datas|;
    for i := 0 to |datas|
      invariant tailBytes == |tails| && next == 32 * |datas| + tailBytes
      invariant head + ElementHeads(datas, i, next) == ElementHeads(datas, 0, 32 * |datas|)
      invariant tails + EncodeEach(datas, i) == EncodeEach(datas)
    {
      ElementStep(datas, i, head, tails, next);
      var off := OffsetWord(32 * |datas| + tailBytes);
      var e := EncodeBytes(datas[i]);
      head := head + off;
      tails := tails + e;
      tailBytes := tailBytes + |e|;
      next := next + |e|;
    }
    BytesArrayParts(datas, next);
    assert head + [] == head && tails + [] == tails;
    return lenWord + head + tails;
  }

  lemma AddressesEncodable(addrs: seq<Bytes>)
    ensures AllScalarEncodable(AddressValues(addrs)) <==> Encodable(AddressArrayV(addrs))
  {
    var vs := AddressValues(addrs);
    assert forall i :: 0 <= i < |addrs| ==> (ScalarEncodable(vs[i]) <==> |addrs[i]| == 20);
  }

  lemma UintsEncodable(xs: seq<int>)
    ensures AllScalarEncodable(UintValues(xs)) <==> Encodable(UintArrayV(xs))
  {
    var vs := UintValues(xs);
    assert forall i :: 0 <= i < |xs| ==> (ScalarEncodable(vs[i]) <==> Fits(xs[i], 32));
  }

  method AbiArray(v: AbiValue) returns (r: Option<Bytes>)
    requires IsArray(v) && |EncodeArray(v)| < Pow256(32)
    ensures r == if Encodable(v) then Some(EncodeArray(v)) else None
  {
    match v {
      case AddressArrayV(addrs) =>
        var lenWord := OffsetWord(|addrs|);
        var ws := AbiStatics(AddressValues(addrs));
        AddressesEncodable(addrs);
        return if ws.None? then None else Some(lenWord + ws.value);
      case UintArrayV(xs) =>
        var lenWord := OffsetWord(|xs|);
        var ws := AbiStatics(UintValues(xs));
        UintsEncodable(xs);
        return if ws.None? then None else Some(lenWord + ws.value);
      case BytesArrayV(datas) =>
        var enc := AbiBytesArray(datas);
        return Some(enc);
    }
  }

  /** The counting loop of lines 1078-1082. */
  method AbiHeadSize(values: seq<AbiValue>) returns (staticSize: nat)
    ensures staticSize == HeadSize(values)
  {
    staticSize := 0;
    for i := 0 to |values|
      invariant staticSize + HeadSize(values, i) == HeadSize(values)
    {
      var v := values[i];
      if !v.TupleV? && !IsDynamic(v) {
        staticSize := staticSize + 32;
      } else if v.TupleV? && !IsDynamic(v) {
        staticSize := staticSize + |v.fields| * 32;
      } else {
        staticSize := staticSize + 32;
      }
    }
  }

  /** The three tail branches of lines 1094-1105. */
  method AbiTail(v: AbiValue) returns (r: Option<Bytes>)
    requires IsDynamic(v) && |Tail(v)| < Pow256(32)
    ensures r == if Encodable(v) then Some(Tail(v)) else None
    decreases v, 1
  {
    if v.BytesV? {
      r := Some(EncodeBytes(v.data));
    } else if IsArray(v) {
      r := AbiArray(v);
    } else {
      r := AbiEncodeSequence(v.fields);
    }
  }

  /** The two branches of lines 1085-1092 that push head words only. */
  method AbiStaticHead(v: AbiValue) returns (r: Option<Bytes>)
    requires !IsDynamic(v)
    ensures r == if Encodable(v) then Some(StaticHead(v)) else None
  {
    if v.TupleV? {
      r := AbiStatics(v.fields);
    } else {
      r := AbiStatic(v);
    }
  }

  lemma SequenceStep(vs: seq<AbiValue>, i: nat, statics: Bytes, dynamics: Bytes, off: nat)
    requires i < |vs|
    ensures statics + Heads(vs, i, off)
         == if IsDynamic(vs[i]) then statics + Word(off) + Heads(vs, i + 1, off + |Tail(vs[i])|)
            else statics + StaticHead(vs[i]) + Heads(vs, i + 1, off)
    ensures dynamics + Tails(vs, i)
         == if IsDynamic(vs[i]) then dynamics + Tail(vs[i]) + Tails(vs, i + 1)
            else dynamics + Tails(vs, i + 1)
  {
    hide Word, StaticHead, Tail, IsDynamic;
    if IsDynamic(vs[i]) {
      Assoc(statics, Word(off), Heads(vs, i + 1, off + |Tail(vs[i])|));
      Assoc(dynamics, Tail(vs[i]), Tails(vs, i + 1));
    } else {
      Assoc(statics, StaticHead(vs[i]), Heads(vs, i + 1, off));
    }
  }

  lemma SequenceParts(vs: seq<AbiValue>, off: nat)
    ensures Heads(vs, |vs|, off) == [] && Tails(vs, |vs|) == []
    ensures EncodeSeq(vs) == Heads(vs, 0, HeadSize(vs)) + Tails(vs)
    ensures AllEncodable(vs) <==> forall i :: 0 <= i < |vs| ==> Encodable(vs[i])
  {
  }

  /**
   `abiEncodeSequence`: returns exactly the head/tail encoding, and throws exactly on
   values that are not encodable. The size bound is the one a 32-byte offset can name.
   */
  method AbiEncodeSequence(values: seq<AbiValue>) returns (r: Option<Bytes>)
    requires |EncodeSeq(values)| < Pow256(32)
    ensures r == if AllEncodable(values) then Some(EncodeSeq(values)) else None
    decreases values, 0
  {
    hide *;
    SequenceParts(values, 0);
    var staticSize := AbiHeadSize(values);
    var statics: Bytes, dynamics: Bytes, tailBytes := [], [], 0;
    ghost var next := staticSize;
    for i := 0 to |values|
      invariant tailBytes == |dynamics| && next == staticSize + tailBytes
      invariant forall k :: 0 <= k < i ==> Encodable(values[k])
      invariant statics + Heads(values, i, next) == Heads(values, 0, staticSize)
      invariant dynamics + Tails(values, i) == Tails(values)
    {
      var v := values[i];
      SequenceStep(values, i, statics, dynamics, next);
      if !IsDynamic(v) {
        var h := AbiStaticHead(v);
        if h.None? {
          return None;
        }
        statics := statics + h.value;
      } else {
        var off := OffsetWord(staticSize + tailBytes);
        var tail := AbiTail(v);
        if tail.None? {
          return None;
        }
        statics := statics + off;
        dynamics := dynamics + tail.value;
        tailBytes := tailBytes + |tail.value|;
        next := next + |tail.value|;
      }
    }
    SequenceParts(values, next);
    assert statics + [] == statics && dynamics + [] == dynamics;
    return Some(statics + dynamics);
  }
}
