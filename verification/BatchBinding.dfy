/**
 Batch authorizations (`packages/evm/src/adapter.ts`): the payload carries only a hash of the
 ABI encoding of the operation arrays. Payload codec and ABI coder together bind every
 operation.
 */
module BatchBinding {
  import opened Bytes
  import opened Abi
  import opened AbiDecode
  import Wire
  import EvmPayloads

  datatype Ops = Ops(targets: seq<Bytes>, values: seq<int>, datas: seq<Bytes>)

  /** The list `buildBatchOpsHash` encodes. */
  function OpsValues(o: Ops): seq<AbiValue> {
    [AddressArrayV(o.targets), UintArrayV(o.values), BytesArrayV(o.datas)]
  }

  /** The encoder accepts the arrays and no `bytes` element exceeds its 32-bit length. */
  predicate WellFormed(o: Ops) {
    && AllEncodable(OpsValues(o))
    && (forall i :: 0 <= i < |o.datas| ==> |o.datas[i]| < Pow256(4))
    && |EncodeSeq(OpsValues(o))| < Pow256(32)
  }

  lemma OpsLossless(o: Ops)
    requires WellFormed(o)
    ensures AllLossless(OpsValues(o))
  {
    hide EncodeSeq, Pow256, Encodable;
  }

  lemma OpsTypes(o: Ops, p: Ops)
    ensures TypesOf(OpsValues(o)) == TypesOf(OpsValues(p))
  {
    assert |TypesOf(OpsValues(o))| == |TypesOf(OpsValues(p))|;
  }

  /** The contract's `abi.decode(.., (address[], uint256[], bytes[]))` gives the three arrays, in this order. */
  lemma OpsDecode(o: Ops)
    requires WellFormed(o)
    ensures DecodeSeq([AddressArrayT, UintArrayT, BytesArrayT], EncodeSeq(OpsValues(o)))
         == Some([AddressArrayV(o.targets), UintArrayV(o.values), BytesArrayV(o.datas)])
  {
    hide EncodeSeq, Pow256, Encodable, DecodeSeq, Lossless;
    OpsLossless(o);
    AbiRoundTrip(OpsValues(o), []);
    assert EncodeSeq(OpsValues(o)) + [] == EncodeSeq(OpsValues(o));
    assert TypesOf(OpsValues(o)) == [AddressArrayT, UintArrayT, BytesArrayT];
  }

  /** Distinct operation arrays have distinct encodings. */
  lemma OpsInjective(o: Ops, p: Ops)
    requires WellFormed(o) && WellFormed(p) && EncodeSeq(OpsValues(o)) == EncodeSeq(OpsValues(p))
    ensures o == p
  {
    hide EncodeSeq, Pow256, Encodable, TypesOf, AllLossless;
    OpsLossless(o);
    OpsLossless(p);
    OpsTypes(o, p);
    AbiInjective(OpsValues(o), OpsValues(p));
    var us, vs := OpsValues(o), OpsValues(p);
    assert us[0] == vs[0] && us[1] == vs[1] && us[2] == vs[2];
  }

  /**
   Two batch authorizations with one preimage are the same request over the same targets,
   values and call data; the hash is only assumed to separate the two encodings.
   */
  lemma BatchBindsOps(hash: Bytes -> Bytes, m: EvmPayloads.Message, o: Ops, n: EvmPayloads.Message, p: Ops)
    requires EvmPayloads.Batch(m) && EvmPayloads.Batch(n) && WellFormed(o) && WellFormed(p)
    requires m.opsHash == hash(EncodeSeq(OpsValues(o))) && n.opsHash == hash(EncodeSeq(OpsValues(p)))
    requires m.opsHash == n.opsHash ==> EncodeSeq(OpsValues(o)) == EncodeSeq(OpsValues(p))
    requires EvmPayloads.Build(m).Some? && EvmPayloads.Build(m) == EvmPayloads.Build(n)
    ensures m == n && o == p
  {
    hide EncodeSeq, EvmPayloads.Build, WellFormed, OpsValues;
    BatchSized(m);
    BatchSized(n);
    EvmPayloads.PreimageInjective(m, n);
    OpsInjective(o, p);
  }

  lemma BatchSized(m: EvmPayloads.Message)
    requires EvmPayloads.Batch(m)
    ensures Wire.AllSized(EvmPayloads.Parts(m)) && EvmPayloads.ByteTags(m)
  {
    hide Pow256;
  }
}
