/**
 The execute path end to end: the client signs a payload over the hash of the canonical call
 (`packages/core/src/hash.ts`), the relayer submits instruction data
 (`packages/solana/src/instructions.ts`), and the program parses that data, hashes the call
 region it found and recomputes the payload it then checks the signature against
 (`contracts/svm/smart-account/src/instructions/execute.rs`, `execute_v4.rs`, `execute_v5.rs`).
 */
module ExecuteAuthorization {
  import opened Bytes
  import opened Wire
  import opened MetaList
  import opened ExecuteInstruction
  import SolanaPayloads

  /** What the payload binds besides the request: the account, and for V5 the program and cluster. */
  datatype Binding = Binding(account: Address, program: Address, cluster: Address)

  /** `executeCallHash` with SHA-256 left open. */
  type CallHash = Bytes -> Address

  function ExecuteMessage(
      v: Version, b: Binding, nonce: int, expiry: int, policy: int, maxTotal: int, callHash: Address)
      : SolanaPayloads.Message
  {
    match v
    case V3 => SolanaPayloads.ExecuteV3(b.account, nonce, expiry, policy, callHash)
    case V4 => SolanaPayloads.ExecuteV4(b.account, nonce, expiry, policy, maxTotal, callHash)
    case V5 => SolanaPayloads.ExecuteV5(b.program, b.cluster, b.account, nonce, expiry, policy, callHash)
  }

  /** The integers and the call hash bound by an execute message, in any version. */
  datatype Terms = Terms(nonce: int, expiry: int, policy: int, maxTotal: int, callHash: Address)

  function MessageOf(v: Version, b: Binding, t: Terms): SolanaPayloads.Message {
    ExecuteMessage(v, b, t.nonce, t.expiry, t.policy, t.maxTotal, t.callHash)
  }

  /** Agreement up to the truncation of each integer; only V4 binds the fee cap. */
  predicate SameTerms(v: Version, s: Terms, t: Terms) {
    && s.nonce % Pow256(8) == t.nonce % Pow256(8)
    && s.expiry % Pow256(8) == t.expiry % Pow256(8)
    && s.policy % Pow256(2) == t.policy % Pow256(2)
    && (v == V4 ==> s.maxTotal % Pow256(8) == t.maxTotal % Pow256(8))
    && s.callHash == t.callHash
  }

  /** The same account, and for V5 the same program and cluster. */
  predicate SameBinding(v: Version, b: Binding, c: Binding) {
    b.account == c.account && (v == V5 ==> b.program == c.program && b.cluster == c.cluster)
  }

  lemma WellFormed(v: Version, b: Binding, t: Terms)
    ensures SolanaPayloads.Build(MessageOf(v, b, t)).Some?
    ensures AllSized(SolanaPayloads.Parts(MessageOf(v, b, t)))
    ensures SolanaPayloads.Version(MessageOf(v, b, t)) == match v case V3 => 3 case V4 => 4 case V5 => 5
  {
    hide Pow256, SolanaPayloads.Preimage;
  }

  /** What the program hashes: its domain, then the parts in the order of `payload_hash_v3`, `v4` and `v5`. */
  function ProgramPreimage(v: Version, b: Binding, t: Terms): Bytes {
    match v
    case V3 =>
      SolanaPayloads.DomainOf(3) + ([6] + (b.account + (LE(t.nonce, 8) + (LE(t.expiry, 8)
        + (LE(t.policy, 2) + t.callHash)))))
    case V4 =>
      SolanaPayloads.DomainOf(4) + ([13] + (b.account + (LE(t.nonce, 8) + (LE(t.expiry, 8)
        + (LE(t.policy, 2) + (LE(t.maxTotal, 8) + t.callHash))))))
    case V5 =>
      SolanaPayloads.DomainOf(5) + ([21] + (b.program + (b.cluster + (b.account + (LE(t.nonce, 8) + (LE(t.expiry, 8)
        + (LE(t.policy, 2) + t.callHash)))))))
  }

  lemma FromAccount(fs: seq<Field>, k: nat, b: Binding, t: Terms)
    requires k + 4 <= |fs| && fs[k] == Loose(32, b.account) && fs[k + 1] == U64(t.nonce)
    requires fs[k + 2] == I64(t.expiry) && fs[k + 3] == U16(t.policy)
    ensures Concat(fs, k) == b.account + (LE(t.nonce, 8) + (LE(t.expiry, 8) + (LE(t.policy, 2) + Concat(fs, k + 4))))
  {
    hide LE;
    assert Concat(fs, k + 1) == LE(t.nonce, 8) + Concat(fs, k + 2);
    assert Concat(fs, k + 2) == LE(t.expiry, 8) + Concat(fs, k + 3);
  }

  lemma LastHash(fs: seq<Field>, t: Terms)
    requires |fs| > 0 && fs[|fs| - 1] == Fixed(32, t.callHash)
    ensures Concat(fs, |fs| - 1) == t.callHash
  {
    assert Concat(fs, |fs|) == [];
    assert t.callHash + [] == t.callHash;
  }

  /** The client's payload is, byte for byte, what the program hashes. */
  lemma PreimageIsProgrammed(v: Version, b: Binding, t: Terms)
    ensures SolanaPayloads.Build(MessageOf(v, b, t)) == Some(ProgramPreimage(v, b, t))
  {
    hide LE, Pow256, SolanaPayloads.DomainOf, Concat;
    WellFormed(v, b, t);
    var fs := SolanaPayloads.Parts(MessageOf(v, b, t));
    LastHash(fs, t);
    FromAccount(fs, if v == V5 then 2 else 0, b, t);
    match v {
      case V3 =>
      case V4 => ConcatNext(fs, 4);
      case V5 =>
        ConcatNext(fs, 0);
        ConcatNext(fs, 1);
    }
  }

  lemma ConcatNext(fs: seq<Field>, i: nat)
    requires i < |fs|
    ensures Concat(fs, i) == Encode(fs[i]) + Concat(fs, i + 1)
  {
  }

  lemma SameFieldAt(fs: seq<Field>, gs: seq<Field>, i: nat)
    requires SameFields(fs, gs) && i < |fs|
    ensures SameField(fs[i], gs[i])
  {
  }

  lemma FieldsToTerms(v: Version, b: Binding, c: Binding, s: Terms, t: Terms)
    requires SameFields(SolanaPayloads.Parts(MessageOf(v, b, s)), SolanaPayloads.Parts(MessageOf(v, c, t)))
    ensures SameTerms(v, s, t)
  {
    hide Pow256, SameFields;
    var fs, gs := SolanaPayloads.Parts(MessageOf(v, b, s)), SolanaPayloads.Parts(MessageOf(v, c, t));
    var k := if v == V5 then 3 else 1;
    SameFieldAt(fs, gs, k);
    SameFieldAt(fs, gs, k + 1);
    SameFieldAt(fs, gs, k + 2);
    SameFieldAt(fs, gs, k + 3);
    SameFieldAt(fs, gs, |fs| - 1);
  }

  lemma FieldsToBinding(v: Version, b: Binding, c: Binding, s: Terms, t: Terms)
    requires SameFields(SolanaPayloads.Parts(MessageOf(v, b, s)), SolanaPayloads.Parts(MessageOf(v, c, t)))
    ensures SameBinding(v, b, c)
  {
    hide Pow256, SameFields;
    var fs, gs := SolanaPayloads.Parts(MessageOf(v, b, s)), SolanaPayloads.Parts(MessageOf(v, c, t));
    SameFieldAt(fs, gs, 0);
    if v == V5 {
      SameFieldAt(fs, gs, 1);
      SameFieldAt(fs, gs, 2);
    }
  }

  lemma TermsToFields(v: Version, b: Binding, c: Binding, s: Terms, t: Terms)
    requires SameBinding(v, b, c) && SameTerms(v, s, t)
    ensures SameFields(SolanaPayloads.Parts(MessageOf(v, b, s)), SolanaPayloads.Parts(MessageOf(v, c, t)))
  {
    hide Pow256;
  }

  lemma SameHeaders(v: Version, b: Binding, c: Binding, s: Terms, t: Terms)
    ensures SolanaPayloads.TagOf(MessageOf(v, b, s)) == SolanaPayloads.TagOf(MessageOf(v, c, t))
  {
  }

  /** Two execute payloads have one preimage exactly when version, binding and terms agree. */
  lemma ExecutePreimages(v: Version, w: Version, b: Binding, c: Binding, s: Terms, t: Terms)
    ensures SolanaPayloads.Build(MessageOf(v, b, s)) == SolanaPayloads.Build(MessageOf(w, c, t))
            <==> v == w && SameBinding(v, b, c) && SameTerms(v, s, t)
  {
    hide SolanaPayloads.Build, SolanaPayloads.Parts, SolanaPayloads.Version, SolanaPayloads.TagOf,
      SameTerms, SameBinding, MessageOf, SameFields, AllSized;
    WellFormed(v, b, s);
    WellFormed(w, c, t);
    var m, n := MessageOf(v, b, s), MessageOf(w, c, t);
    SolanaPayloads.PreimagesIdentifyMessages(m, n);
    if v == w {
      SameHeaders(v, b, c, s, t);
      if SolanaPayloads.SameMessage(m, n) {
        FieldsToTerms(v, b, c, s, t);
        FieldsToBinding(v, b, c, s, t);
      }
      if SameBinding(v, b, c) && SameTerms(v, s, t) {
        TermsToFields(v, b, c, s, t);
      }
    }
  }

  /** `buildExecutePayloadV3`, `V4` or `V5` for a request. */
  function Authorized(q: Request, h: CallHash): Terms {
    Terms(q.nonce, q.expiry, q.policy, q.maxTotalFee, h(CallBytes(q.call)))
  }

  /** What the program binds of what it parsed. */
  function Recomputed(p: Parsed, h: CallHash): Terms {
    Terms(p.nonce, p.expiry, p.policy, if p.maxTotalFee.Some? then p.maxTotalFee.value else 0, h(p.call.region))
  }

  lemma SignedModulo(x: int)
    requires 0 <= x < Pow256(8)
    ensures Signed(x, 8) % Pow256(8) == x
    ensures -(Pow256(8) / 2) <= Signed(x, 8) < Pow256(8) / 2
  {
    assert Pow256(8) == 256 * Pow256(7);
    var p := Pow256(8);
    if x < p / 2 {
      DivModUnique(x, p, 0, x);
    } else {
      DivModUnique(x - p, p, -1, x);
    }
  }

  lemma ModMod(n: int, w: nat)
    ensures 0 <= n % Pow256(w) < Pow256(w) && (n % Pow256(w)) % Pow256(w) == n % Pow256(w)
  {
    UnsignedExact(n % Pow256(w), w);
  }

  /**
   From every instruction the builder produces, for any integers at all, the program
   recomputes exactly the payload the client signed.
   */
  lemma ProgramRecomputesPayload(q: Request, b: Binding, h: CallHash)
    requires WithinCaps(q.call)
    ensures Parse(q.version, Body(q)).Some?
    ensures SolanaPayloads.Build(MessageOf(q.version, b, Recomputed(Parse(q.version, Body(q)).value, h)))
         == SolanaPayloads.Build(MessageOf(q.version, b, Authorized(q, h)))
  {
    hide SolanaPayloads.Build, MessageOf, Parse, Body, Pow256, Signed, CallBytes, Raw;
    ExecuteParsesBack(q);
    ModMod(q.nonce, 8);
    ModMod(q.policy, 2);
    ModMod(q.maxTotalFee, 8);
    ModMod(q.expiry, 8);
    SignedModulo(q.expiry % Pow256(8));
    ExecutePreimages(q.version, q.version, b, b, Recomputed(Received(q), h), Authorized(q, h));
  }

  lemma ReadInRange(data: Bytes, offset: nat, width: nat)
    ensures ReadUnsigned(data, offset, width).Some? ==> 0 <= ReadUnsigned(data, offset, width).value < Pow256(width)
  {
    hide Pow256, ValueLE;
    var bs := Read(data, offset, width);
    if bs.Some? {
      LEOfValue(bs.value);
    }
  }

  predicate InRangeParse(v: Version, p: Parsed) {
    && 0 <= p.nonce < Pow256(8)
    && -(Pow256(8) / 2) <= p.expiry < Pow256(8) / 2
    && 0 <= p.policy < Pow256(2)
    && (v == V4 <==> p.maxTotalFee.Some?)
    && (v == V4 ==> 0 <= p.maxTotalFee.value < Pow256(8))
  }

  lemma TrailerInRange(v: Version, data: Bytes, cursor: nat, nonce: nat, call: ParsedCall)
    requires nonce < Pow256(8) && ParseTrailer(v, data, cursor, nonce, call).Some?
    ensures InRangeParse(v, ParseTrailer(v, data, cursor, nonce, call).value)
    ensures ParseTrailer(v, data, cursor, nonce, call).value.call == call
  {
    hide Pow256, Read, ReadUnsigned, Signed;
    ReadInRange(data, cursor, 8);
    ReadInRange(data, cursor + 8, 2);
    ReadInRange(data, cursor + 18, 8);
    SignedModulo(ReadUnsigned(data, cursor, 8).value);
  }

  lemma ParseInRange(v: Version, data: Bytes)
    requires Parse(v, data).Some?
    ensures InRangeParse(v, Parse(v, data).value)
    ensures ParseCall(data, 8) == Some(Parse(v, data).value.call)
  {
    hide Pow256, Read, ReadUnsigned, ParseCall, ParseTrailer, InRangeParse;
    ReadInRange(data, 0, 8);
    var nonce, call := ReadUnsigned(data, 0, 8).value, ParseCall(data, 8).value;
    TrailerInRange(v, data, 8 + |call.region|, nonce, call);
  }

  /** The program reads nothing of the call outside the region it hashes. */
  lemma RegionIsCall(data: Bytes, at: nat, c: Call)
    requires ParseCall(data, at).Some? && ParseCall(data, at).value.region == CallBytes(c) && WithinCaps(c)
    ensures ParseCall(data, at) == Some(ParsedCall(c.target, Raw(c.metas), c.data, CallBytes(c)))
  {
    hide CallBytes, Raw, ReadMetas, ReadUnsigned, ReadByte;
    var region := ParseCall(data, at).value.region;
    assert At(data, at, region);
    CallParsesBack(data, at, c);
  }

  /**
   On an account of binding `c`, the program parses the data and recomputes the payload that
   was signed for `q` under `b`.
   */
  predicate Verifies(v: Version, data: Bytes, c: Binding, q: Request, b: Binding, h: CallHash) {
    && Parse(v, data).Some?
    && SolanaPayloads.Build(MessageOf(v, c, Recomputed(Parse(v, data).value, h)))
    == SolanaPayloads.Build(MessageOf(q.version, b, Authorized(q, h)))
  }

  /** The hash tells the parsed call region from the signed one. */
  predicate Separates(h: CallHash, v: Version, data: Bytes, q: Request) {
    Parse(v, data).Some? && h(Parse(v, data).value.call.region) == h(CallBytes(q.call))
    ==> Parse(v, data).value.call.region == CallBytes(q.call)
  }

  /** Parsed and requested agree on everything the payload binds. */
  predicate AsSigned(p: Parsed, r: Parsed) {
    && p.nonce == r.nonce && p.expiry == r.expiry && p.policy == r.policy
    && p.maxTotalFee == r.maxTotalFee && p.call == r.call
  }

  /**
   The relayer chooses the instruction data and the accounts, yet whatever data of whatever
   version on whatever account makes the program recompute the signed payload decodes to the
   signed version, nonce, expiry, policy and fee cap, and to the signed target, metas and call
   data, on the signed account and, in V5, the signed program and cluster. SHA-256 is only
   assumed to separate the two call regions.
   */
  lemma RelayerCannotSubstitute(v: Version, data: Bytes, c: Binding, q: Request, b: Binding, h: CallHash)
    requires WithinCaps(q.call)
    ensures Verifies(v, data, c, q, b, h) && Separates(h, v, data, q) ==>
              v == q.version && SameBinding(v, c, b) && AsSigned(Parse(v, data).value, Received(q))
  {
    hide SolanaPayloads.Build, MessageOf, Parse, Pow256, Signed, CallBytes, Raw, ParseCall;
    if Verifies(v, data, c, q, b, h) && Separates(h, v, data, q) {
      var p := Parse(v, data).value;
      ExecutePreimages(v, q.version, c, b, Recomputed(p, h), Authorized(q, h));
      ParseInRange(v, data);
      RegionIsCall(data, 8, q.call);
      UnsignedExact(p.nonce, 8);
      UnsignedExact(p.policy, 2);
      if v == V4 {
        UnsignedExact(p.maxTotalFee.value, 8);
      }
      SignedExact(p.expiry, 8);
    }
  }
}
