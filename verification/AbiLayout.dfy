/**
 Where the encoder puts things: every offset word names the byte at which its own tail
 starts, tails follow the head in order without gap or overlap, everything is word
 aligned, and arrays are a length word in front of the tuple of their elements.
 */
module AbiLayout {
  import opened Bytes
  import opened Abi
  import opened AbiDecode

  /** Byte at which the `i`-th value's head entry starts. */
  function HeadStart(vs: seq<AbiValue>, i: nat): nat
    requires i <= |vs|
  {
    if i == 0 then 0 else HeadStart(vs, i - 1) + HeadLen(vs[i - 1])
  }

  /** Byte at which the `i`-th tail starts: right after the head and all earlier tails. */
  function TailStart(vs: seq<AbiValue>, i: nat): nat
    requires i <= |vs|
  {
    if i == 0 then HeadSize(vs) else NextOffset(vs[i - 1], TailStart(vs, i - 1))
  }

  lemma {:induction false} Placed(vs: seq<AbiValue>, i: nat)
    requires i <= |vs|
    ensures At(EncodeSeq(vs), HeadStart(vs, i), Heads(vs, i, TailStart(vs, i)))
    ensures At(EncodeSeq(vs), TailStart(vs, i), Tails(vs, i))
    ensures TailStart(vs, i) + |Tails(vs, i)| == |EncodeSeq(vs)|
    ensures HeadStart(vs, i) + HeadSize(vs, i) == HeadSize(vs)
  {
    hide Heads, Tails, HeadSize, EncodeSeq, Tail, IsDynamic, HeadLen, At, EntryAt, NextOffset;
    if i == 0 {
      PlacedAtStart(vs);
    } else {
      Placed(vs, i - 1);
      PlacementStep(vs, i - 1, EncodeSeq(vs), HeadStart(vs, i - 1), TailStart(vs, i - 1));
    }
  }

  lemma PlacedAtStart(vs: seq<AbiValue>)
    ensures At(EncodeSeq(vs), 0, Heads(vs, 0, HeadSize(vs)))
    ensures At(EncodeSeq(vs), HeadSize(vs), Tails(vs))
    ensures HeadSize(vs) + |Tails(vs)| == |EncodeSeq(vs)|
  {
    hide Heads, Tails, HeadSize;
    AtSplit(EncodeSeq(vs), 0, Heads(vs, 0, HeadSize(vs)), Tails(vs));
  }

  /**
   The layout of an encoding: entry `i` of the head is the value itself or the position
   of its tail, and that tail ends where the next one starts; the last ends the encoding.
   */
  lemma OffsetsNameTails(vs: seq<AbiValue>, i: nat)
    requires i < |vs|
    ensures EntryAt(vs[i], EncodeSeq(vs), HeadStart(vs, i), TailStart(vs, i))
    ensures HeadStart(vs, i) + HeadLen(vs[i]) == HeadStart(vs, i + 1) <= HeadStart(vs, |vs|) == HeadSize(vs)
    ensures HeadSize(vs) <= TailStart(vs, i) <= TailStart(vs, i + 1) <= TailStart(vs, |vs|) == |EncodeSeq(vs)|
    ensures IsDynamic(vs[i]) ==> TailStart(vs, i + 1) == TailStart(vs, i) + |Tail(vs[i])|
  {
    hide At, Heads, EncodeSeq, Tail, IsDynamic, EntryAt, HeadLen;
    Placed(vs, i);
    Placed(vs, i + 1);
    Placed(vs, |vs|);
    PlacementStep(vs, i, EncodeSeq(vs), HeadStart(vs, i), TailStart(vs, i));
    TailsBeyondHead(vs, i);
  }

  lemma {:induction false} TailsBeyondHead(vs: seq<AbiValue>, i: nat)
    requires i <= |vs|
    ensures TailStart(vs, i) >= HeadSize(vs)
  {
    if i > 0 {
      TailsBeyondHead(vs, i - 1);
    }
  }

  // ------------------------------------------------------------------
  // Alignment
  // ------------------------------------------------------------------

  lemma {:induction false} HeadAligned(vs: seq<AbiValue>, i: nat)
    requires i <= |vs|
    ensures HeadSize(vs, i) % 32 == 0
    decreases |vs| - i
  {
    if i < |vs| {
      HeadAligned(vs, i + 1);
    }
  }

  lemma {:induction false} EachAligned(datas: seq<Bytes>, i: nat)
    requires i <= |datas|
    ensures |EncodeEach(datas, i)| % 32 == 0
    decreases |datas| - i
  {
    hide EncodeBytes;
    if i < |datas| {
      EachAligned(datas, i + 1);
    }
  }

  lemma {:induction false} TailAligned(v: AbiValue)
    requires IsDynamic(v)
    ensures |Tail(v)| % 32 == 0
    decreases v, 2
  {
    hide EncodeBytes, BE, EncodeSeq, EncodeEach, ElementHeads, ScalarWords;
    match v {
      case BytesV(_) =>
      case TupleV(fs) => Aligned(fs);
      case BytesArrayV(datas) => EachAligned(datas, 0);
      case AddressArrayV(_) =>
      case UintArrayV(_) =>
    }
  }

  lemma {:induction false} TailsAligned(vs: seq<AbiValue>, i: nat)
    requires i <= |vs|
    ensures |Tails(vs, i)| % 32 == 0
    decreases vs, 0, |vs| - i
  {
    hide Tail, IsDynamic;
    if i < |vs| {
      TailsAligned(vs, i + 1);
      if IsDynamic(vs[i]) {
        TailAligned(vs[i]);
      }
    }
  }

  /** Every encoding, at every nesting level, is a whole number of words. */
  lemma Aligned(vs: seq<AbiValue>)
    ensures |EncodeSeq(vs)| == HeadSize(vs) + |Tails(vs)|
    ensures |EncodeSeq(vs)| % 32 == 0
    decreases vs, 1
  {
    hide Heads, Tails, HeadSize;
    HeadAligned(vs, 0);
    TailsAligned(vs, 0);
  }

  // ------------------------------------------------------------------
  // Arrays are length-prefixed tuples
  // ------------------------------------------------------------------

  function BytesValues(datas: seq<Bytes>): (vs: seq<AbiValue>)
    ensures |vs| == |datas|
  {
    seq(|datas|, i requires 0 <= i < |datas| => BytesV(datas[i]))
  }

  function Elements(v: AbiValue): seq<AbiValue>
    requires IsArray(v)
  {
    match v
    case AddressArrayV(addrs) => AddressValues(addrs)
    case UintArrayV(xs) => UintValues(xs)
    case BytesArrayV(datas) => BytesValues(datas)
  }

  lemma {:induction false} ScalarsAsHeads(vs: seq<AbiValue>, i: nat, off: nat)
    requires i <= |vs| && forall k :: 0 <= k < |vs| ==> IsScalar(vs[k])
    ensures Heads(vs, i, off) == ScalarWords(vs, i)
    ensures Tails(vs, i) == []
    ensures HeadSize(vs, i) == 32 * (|vs| - i)
    decreases |vs| - i
  {
    hide EncodeStatic;
    if i < |vs| {
      ScalarsAsHeads(vs, i + 1, off);
    }
  }

  lemma {:induction false} ElementsAsHeads(datas: seq<Bytes>, i: nat, off: nat)
    requires i <= |datas|
    ensures Heads(BytesValues(datas), i, off) == ElementHeads(datas, i, off)
    ensures Tails(BytesValues(datas), i) == EncodeEach(datas, i)
    ensures HeadSize(BytesValues(datas), i) == 32 * (|datas| - i)
    decreases |datas| - i
  {
    hide EncodeBytes, Word;
    if i < |datas| {
      ElementsAsHeads(datas, i + 1, off + |EncodeBytes(datas[i])|);
    }
  }

  /** `enc(X) = enc(k) enc((X[0], ..., X[k-1]))`, so element offsets obey `OffsetsNameTails`. */
  lemma ArrayIsLengthPrefixedTuple(v: AbiValue)
    requires IsArray(v)
    ensures EncodeArray(v) == Word(|Elements(v)|) + EncodeSeq(Elements(v))
  {
    hide Heads, Tails, ScalarWords, ElementHeads, EncodeEach, HeadSize, BE;
    var vs := Elements(v);
    match v {
      case BytesArrayV(datas) =>
        ElementsAsHeads(datas, 0, 32 * |datas|);
        Assoc(Word(|datas|), ElementHeads(datas, 0, 32 * |datas|), EncodeEach(datas));
      case AddressArrayV(_) =>
        ScalarsAsHeads(vs, 0, HeadSize(vs));
        assert EncodeSeq(vs) == ScalarWords(vs);
      case UintArrayV(_) =>
        ScalarsAsHeads(vs, 0, HeadSize(vs));
        assert EncodeSeq(vs) == ScalarWords(vs);
    }
  }
}
