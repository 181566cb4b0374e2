/**
 What a contract reads out of the hand-laid calldata: for each builder the parameter types as
 its selector's signature lists them, and the argument every parameter receives
 (`packages/evm/src/adapter.ts`).
 */
module CalldataReader {
  import opened Bytes
  import opened Abi
  import opened AbiDecode
  import opened Calldata

  /** A scalar no wider than a word, or `bytes` below 2^32. */
  predicate Small(v: AbiValue) {
    match v
    case UintV(w, _) => w <= 32
    case BytesV(b) => |b| < Pow256(4)
    case AddressV(_) => true
    case Bytes32V(_) => true
    case _ => false
  }

  lemma SmallLossless(v: AbiValue)
    requires Small(v) && Encodable(v)
    ensures Lossless(v)
  {
    hide Pow256;
    if v.UintV? {
      Pow256Monotone(v.width, 32);
    }
  }

  lemma ReadsBack(sel: Bytes, list: seq<AbiValue>, types: seq<AbiType>)
    requires AllEncodable(list) && |EncodeSeq(list)| < Pow256(32)
    requires forall i :: 0 <= i < |list| ==> Small(list[i])
    requires |types| == |list| && forall i :: 0 <= i < |list| ==> types[i] == TypeOf(list[i])
    ensures DecodeSeq(types, (sel + EncodeSeq(list))[|sel|..]) == Some(list)
  {
    hide EncodeSeq, Pow256, Encodable, Lossless, DecodeSeq, Small;
    forall i | 0 <= i < |list|
      ensures Lossless(list[i])
    {
      SmallLossless(list[i]);
    }
    AbiRoundTrip(list, []);
    assert EncodeSeq(list) + [] == EncodeSeq(list) == (sel + EncodeSeq(list))[|sel|..];
    assert TypesOf(list) == types;
  }

  /** Both halves of the assertion are below 2^32 bytes. */
  predicate SmallAssertion(p: Assertion) {
    |p.auth| < Pow256(4) && |p.client| < Pow256(4)
  }

  /** `pad32` of a byte string of at most 32 bytes. */
  function Word32(bs: Bytes): Bytes {
    if |bs| <= 32 then Zeros(32 - |bs|) + bs else bs
  }

  lemma WordOf(bs: Bytes)
    requires |bs| <= 32
    ensures Low32(bs) == Word32(bs)
  {
  }

  lemma EmptyPadded()
    ensures PaddedLen(0) == 32
  {
  }

  lemma DeployV2Assertion(sel: Bytes, a: DeployV2, p: Assertion)
    requires BuildDeployAndInitDataV2(sel, a, p).Some?
    ensures AssertionOk(p)
  {
    hide EncodeBytes, Low32, Flatten, Padded, Pow256;
  }

  /** `deployAndInit(bytes32,bytes32,bytes32,bytes32,uint256,uint16,uint64,uint256,bytes,bytes,bytes32,bytes32)`. */
  lemma DeployV2Reads(sel: Bytes, a: DeployV2, p: Assertion)
    requires BuildDeployAndInitDataV2(sel, a, p).Some? && SmallAssertion(p)
    ensures DecodeSeq(
        [Bytes32T, Bytes32T, Bytes32T, Bytes32T, UintT(32), UintT(2), UintT(8), UintT(32),
         BytesT, BytesT, Bytes32T, Bytes32T],
        BuildDeployAndInitDataV2(sel, a, p).value[|sel|..])
      == Some(
        [Bytes32V(Word32(a.salt)), Bytes32V(Word32(a.x)), Bytes32V(Word32(a.y)), Bytes32V(Word32(a.rpIdHash)),
         UintV(32, a.maxFee), UintV(2, a.policy), UintV(8, a.deadline), UintV(32, a.fee),
         BytesV(p.auth), BytesV(p.client), Bytes32V(p.r), Bytes32V(p.s)])
  {
    hide EncodeSeq, AllEncodable, Low32, DecodeSeq, Pow256, BuildDeployAndInitDataV2, PaddedLen, Word32, AssertionOk;
    DeployV2IsGeneric(sel, a, p);
    DeployV2Assertion(sel, a, p);
    DeployLength(DeployV2Args(a), p);
    SmallEnough(|p.auth|, |p.client|, 0);
    EmptyPadded();
    WordOf(a.salt);
    WordOf(a.x);
    WordOf(a.y);
    WordOf(a.rpIdHash);
    var list := DeployV2Args(a) + AssertionArgs(p);
    assert list == [
      Bytes32V(Word32(a.salt)), Bytes32V(Word32(a.x)), Bytes32V(Word32(a.y)), Bytes32V(Word32(a.rpIdHash)),
      UintV(32, a.maxFee), UintV(2, a.policy), UintV(8, a.deadline), UintV(32, a.fee),
      BytesV(p.auth), BytesV(p.client), Bytes32V(p.r), Bytes32V(p.s)];
    ReadsBack(sel, list,
      [Bytes32T, Bytes32T, Bytes32T, Bytes32T, UintT(32), UintT(2), UintT(8), UintT(32),
       BytesT, BytesT, Bytes32T, Bytes32T]);
  }

  lemma DeployV3Assertion(sel: Bytes, a: DeployV3, p: Assertion)
    requires BuildDeployAndInitDataV3(sel, a, p).Some?
    ensures AssertionOk(p)
  {
    hide EncodeBytes, Low32, Flatten, Padded, Pow256;
  }

  /** `deployAndInit(bytes32,bytes32,bytes32,uint16,uint64,uint256,bytes,bytes,bytes32,bytes32)`. */
  lemma DeployV3Reads(sel: Bytes, a: DeployV3, p: Assertion)
    requires BuildDeployAndInitDataV3(sel, a, p).Some? && SmallAssertion(p)
    ensures DecodeSeq(
        [Bytes32T, Bytes32T, Bytes32T, UintT(2), UintT(8), UintT(32),
         BytesT, BytesT, Bytes32T, Bytes32T],
        BuildDeployAndInitDataV3(sel, a, p).value[|sel|..])
      == Some(
        [Bytes32V(Word32(a.pidHash)), Bytes32V(Word32(a.x)), Bytes32V(Word32(a.y)),
         UintV(2, a.policy), UintV(8, a.deadline), UintV(32, a.networkFee),
         BytesV(p.auth), BytesV(p.client), Bytes32V(p.r), Bytes32V(p.s)])
  {
    hide EncodeSeq, AllEncodable, Low32, DecodeSeq, Pow256, BuildDeployAndInitDataV3, PaddedLen, Word32, AssertionOk;
    DeployV3IsGeneric(sel, a, p);
    DeployV3Assertion(sel, a, p);
    DeployLength(DeployV3Args(a), p);
    SmallEnough(|p.auth|, |p.client|, 0);
    EmptyPadded();
    WordOf(a.pidHash);
    WordOf(a.x);
    WordOf(a.y);
    var list := DeployV3Args(a) + AssertionArgs(p);
    assert list == [Bytes32V(Word32(a.pidHash)), Bytes32V(Word32(a.x)), Bytes32V(Word32(a.y)),
      UintV(2, a.policy), UintV(8, a.deadline), UintV(32, a.networkFee),
      BytesV(p.auth), BytesV(p.client), Bytes32V(p.r), Bytes32V(p.s)];
    ReadsBack(sel, list,
      [Bytes32T, Bytes32T, Bytes32T, UintT(2), UintT(8), UintT(32),
       BytesT, BytesT, Bytes32T, Bytes32T]);
  }

  lemma DeployV4Assertion(sel: Bytes, a: DeployV4, p: Assertion)
    requires BuildDeployAndInitDataV4(sel, a, p).Some?
    ensures AssertionOk(p)
  {
    hide EncodeBytes, Low32, Flatten, Padded, Pow256;
  }

  /** `deployAndInitV4(bytes32,bytes32,bytes32,uint16,uint256,uint64,uint256,bytes,bytes,bytes32,bytes32)`. */
  lemma DeployV4Reads(sel: Bytes, a: DeployV4, p: Assertion)
    requires BuildDeployAndInitDataV4(sel, a, p).Some? && SmallAssertion(p)
    ensures DecodeSeq(
        [Bytes32T, Bytes32T, Bytes32T, UintT(2), UintT(32), UintT(8), UintT(32),
         BytesT, BytesT, Bytes32T, Bytes32T],
        BuildDeployAndInitDataV4(sel, a, p).value[|sel|..])
      == Some(
        [Bytes32V(Word32(a.pidHash)), Bytes32V(Word32(a.x)), Bytes32V(Word32(a.y)),
         UintV(2, a.policy), UintV(32, a.maxTotalFee), UintV(8, a.deadline), UintV(32, a.networkFee),
         BytesV(p.auth), BytesV(p.client), Bytes32V(p.r), Bytes32V(p.s)])
  {
    hide EncodeSeq, AllEncodable, Low32, DecodeSeq, Pow256, BuildDeployAndInitDataV4, PaddedLen, Word32, AssertionOk;
    DeployV4IsGeneric(sel, a, p);
    DeployV4Assertion(sel, a, p);
    DeployLength(DeployV4Args(a), p);
    SmallEnough(|p.auth|, |p.client|, 0);
    EmptyPadded();
    WordOf(a.pidHash);
    WordOf(a.x);
    WordOf(a.y);
    var list := DeployV4Args(a) + AssertionArgs(p);
    assert list == [Bytes32V(Word32(a.pidHash)), Bytes32V(Word32(a.x)), Bytes32V(Word32(a.y)),
      UintV(2, a.policy), UintV(32, a.maxTotalFee), UintV(8, a.deadline), UintV(32, a.networkFee),
      BytesV(p.auth), BytesV(p.client), Bytes32V(p.r), Bytes32V(p.s)];
    ReadsBack(sel, list,
      [Bytes32T, Bytes32T, Bytes32T, UintT(2), UintT(32), UintT(8), UintT(32),
       BytesT, BytesT, Bytes32T, Bytes32T]);
  }

  lemma ExecuteV3Assertion(sel: Bytes, a: ExecuteV3, p: Assertion)
    requires BuildExecuteDataV3(sel, a, p).Some?
    ensures AssertionOk(p)
  {
    hide EncodeBytes, Low32, Flatten, Padded, Pow256;
  }

  /** `execute(address,uint256,bytes,uint64,uint16,uint256,bytes,bytes,bytes32,bytes32)`. */
  lemma ExecuteV3Reads(sel: Bytes, a: ExecuteV3, p: Assertion)
    requires BuildExecuteDataV3(sel, a, p).Some? && |a.data| < Pow256(4) && SmallAssertion(p)
    ensures DecodeSeq(
        [AddressT, UintT(32), BytesT, UintT(8), UintT(2), UintT(32),
         BytesT, BytesT, Bytes32T, Bytes32T],
        BuildExecuteDataV3(sel, a, p).value[|sel|..])
      == Some(
        [AddressV(a.to), UintV(32, a.value), BytesV(a.data),
         UintV(8, a.deadline), UintV(2, a.policy), UintV(32, a.networkFee),
         BytesV(p.auth), BytesV(p.client), Bytes32V(p.r), Bytes32V(p.s)])
  {
    hide EncodeSeq, AllEncodable, DecodeSeq, Pow256, BuildExecuteDataV3, PaddedLen, AssertionOk;
    ExecuteV3IsGeneric(sel, a, p);
    ExecuteV3Assertion(sel, a, p);
    ExecuteLength(TargetArgs(a.to, a.value), a.data, ExecuteV3Args(a), p);
    SmallEnough(|a.data|, |p.auth|, |p.client|);
    var list := ExecuteV3List(a, p);
    assert list == [AddressV(a.to), UintV(32, a.value), BytesV(a.data),
      UintV(8, a.deadline), UintV(2, a.policy), UintV(32, a.networkFee),
      BytesV(p.auth), BytesV(p.client), Bytes32V(p.r), Bytes32V(p.s)];
    ReadsBack(sel, list,
      [AddressT, UintT(32), BytesT, UintT(8), UintT(2), UintT(32),
       BytesT, BytesT, Bytes32T, Bytes32T]);
  }

  lemma ExecuteV4Assertion(sel: Bytes, a: ExecuteV4, p: Assertion)
    requires BuildExecuteDataV4(sel, a, p).Some?
    ensures AssertionOk(p)
  {
    hide EncodeBytes, Low32, Flatten, Padded, Pow256;
  }

  /** `executeV4(address,uint256,bytes,uint64,uint16,uint256,uint256,bytes,bytes,bytes32,bytes32)`. */
  lemma ExecuteV4Reads(sel: Bytes, a: ExecuteV4, p: Assertion)
    requires BuildExecuteDataV4(sel, a, p).Some? && |a.data| < Pow256(4) && SmallAssertion(p)
    ensures DecodeSeq(
        [AddressT, UintT(32), BytesT, UintT(8), UintT(2), UintT(32), UintT(32),
         BytesT, BytesT, Bytes32T, Bytes32T],
        BuildExecuteDataV4(sel, a, p).value[|sel|..])
      == Some(
        [AddressV(a.to), UintV(32, a.value), BytesV(a.data), UintV(8, a.deadline), UintV(2, a.policy),
         UintV(32, a.maxTotalFee), UintV(32, a.networkFee),
         BytesV(p.auth), BytesV(p.client), Bytes32V(p.r), Bytes32V(p.s)])
  {
    hide EncodeSeq, AllEncodable, DecodeSeq, Pow256, BuildExecuteDataV4, PaddedLen, AssertionOk;
    ExecuteV4IsGeneric(sel, a, p);
    ExecuteV4Assertion(sel, a, p);
    ExecuteLength(TargetArgs(a.to, a.value), a.data, ExecuteV4Args(a), p);
    SmallEnough(|a.data|, |p.auth|, |p.client|);
    var list := ExecuteV4List(a, p);
    assert list == [AddressV(a.to), UintV(32, a.value), BytesV(a.data), UintV(8, a.deadline), UintV(2, a.policy),
      UintV(32, a.maxTotalFee), UintV(32, a.networkFee),
      BytesV(p.auth), BytesV(p.client), Bytes32V(p.r), Bytes32V(p.s)];
    ReadsBack(sel, list,
      [AddressT, UintT(32), BytesT, UintT(8), UintT(2), UintT(32), UintT(32),
       BytesT, BytesT, Bytes32T, Bytes32T]);
  }
}
