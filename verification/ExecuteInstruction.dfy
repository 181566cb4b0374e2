/**
 The `execute` instructions V3, V4 and V5 (`packages/solana/src/instructions.ts`,
 `serializeExecuteCall` in `packages/core/src/hash.ts`) against the parser of the on-chain
 program (`contracts/svm/smart-account/src/instructions/execute.rs`, `execute_v4.rs`,
 `execute_v5.rs`).
 */
module ExecuteInstruction {
  import opened Bytes
  import opened MetaList

  const MAX_METAS: nat := 64
  const MAX_DATA: nat := 10240

  datatype Call = Call(target: Address, metas: seq<Meta>, data: Bytes)

  /** `target ‖ meta_count u8 ‖ metas ‖ data_len u16 ‖ data`. */
  function CallBytes(c: Call): Bytes {
    c.target + ([|c.metas| % 256] + (MetasBytes(c.metas) + (LE(|c.data|, 2) + c.data)))
  }

  predicate WithinCaps(c: Call) {
    |c.metas| <= MAX_METAS && |c.data| <= MAX_DATA
  }

  function CallLength(c: Call): nat {
    35 + 33 * |c.metas| + |c.data|
  }

  lemma CallLengthIs(c: Call)
    ensures |CallBytes(c)| == CallLength(c)
  {
    hide LE, MetasBytes;
    MetasLength(c.metas, 0);
  }

  /** `serializeExecuteCall`: push the parts of every meta, then join. */
  method SerializeExecuteCall(c: Call) returns (r: Option<Bytes>)
    ensures r == if WithinCaps(c) then Some(CallBytes(c)) else None
  {
    if |c.metas| > MAX_METAS || |c.data| > MAX_DATA {
      return None;
    }
    var parts := c.target + [|c.metas| % 256];
    var i := 0;
    while i < |c.metas|
      invariant 0 <= i <= |c.metas|
      invariant parts == c.target + [|c.metas| % 256] + MetasBytes(c.metas[..i])
    {
      hide MetasBytes, LE;
      var m := c.metas[i];
      MetasSnoc(c.metas, i, 0);
      parts := parts + m.address + [(if m.writable then 1 else 0) + (if m.signer then 2 else 0)];
      i := i + 1;
    }
    hide *;
    assert c.metas[..i] == c.metas;
    assert parts + LE(|c.data|, 2) + c.data
        == c.target + ([|c.metas| % 256] + (MetasBytes(c.metas) + (LE(|c.data|, 2) + c.data)));
    return Some(parts + LE(|c.data|, 2) + c.data);
  }

  /** The call as the program sees it, with the region it hashes as `call_hash`. */
  datatype ParsedCall = ParsedCall(target: Address, metas: seq<RawMeta>, data: Bytes, region: Bytes)

  /** The program's reads from the target at offset `at` to the end of the call data. */
  function ParseCall(data: Bytes, at: nat): Option<ParsedCall> {
    var target :- ReadAddress(data, at);
    var count :- ReadByte(data, at + 32);
    if count > 64 then None else
    var metas :- ReadMetas(data, at + 33, count);
    var off := at + 33 + 33 * count;
    var len :- ReadUnsigned(data, off, 2);
    if len > 10240 then None else
    var region :- Read(data, at, 35 + 33 * count + len);
    var call :- Read(data, off + 2, len);
    Some(ParsedCall(target, metas, call, region))
  }

  lemma CallParts(data: Bytes, at: nat, c: Call)
    requires At(data, at, CallBytes(c))
    ensures At(data, at, c.target)
    ensures At(data, at + 32, [|c.metas| % 256])
    ensures At(data, at + 33, MetasBytes(c.metas))
    ensures At(data, at + 33 + 33 * |c.metas|, LE(|c.data|, 2))
    ensures At(data, at + 35 + 33 * |c.metas|, c.data)
  {
    hide LE, MetasBytes, At;
    MetasLength(c.metas, 0);
    var rest := LE(|c.data|, 2) + c.data;
    AtSplit(data, at, c.target, [|c.metas| % 256] + (MetasBytes(c.metas) + rest));
    AtSplit(data, at + 32, [|c.metas| % 256], MetasBytes(c.metas) + rest);
    AtSplit(data, at + 33, MetasBytes(c.metas), rest);
    AtSplit(data, at + 33 + 33 * |c.metas|, LE(|c.data|, 2), c.data);
  }

  lemma LengthPrefix(n: nat)
    ensures n % Pow256(2) == n % 65536
  {
    assert Pow256(1) == 256 * Pow256(0);
  }

  /**
   Wherever a serialized call stands in instruction data, the program parses it back and
   hashes exactly the serialized bytes.
   */
  lemma CallParsesBack(data: Bytes, at: nat, c: Call)
    requires WithinCaps(c) && At(data, at, CallBytes(c))
    ensures ParseCall(data, at) == Some(ParsedCall(c.target, Raw(c.metas), c.data, CallBytes(c)))
  {
    hide LE, MetasBytes, At, Pow256, Read, ReadByte, ReadMetas, ReadUnsigned, Raw;
    CallParts(data, at, c);
    ReadAt(data, at, c.target);
    ReadByteAt(data, at + 32, |c.metas| % 256);
    ReadMetasBack(data, at + 33, c.metas, 0);
    assert Raw(c.metas)[0..] == Raw(c.metas);
    ReadUnsignedAt(data, at + 33 + 33 * |c.metas|, |c.data|, 2);
    LengthPrefix(|c.data|);
    ReadAt(data, at, CallBytes(c));
    CallLengthIs(c);
    ReadAt(data, at + 35 + 33 * |c.metas|, c.data);
  }

  /** No serialized call is a proper prefix of another: what follows cannot move its end. */
  lemma CallPrefixFree(c: Call, d: Call, s: Bytes, t: Bytes)
    requires WithinCaps(c) && WithinCaps(d)
    requires CallBytes(c) + s == CallBytes(d) + t
    ensures c == d && s == t
  {
    hide *;
    var data := CallBytes(c) + s;
    AtFront(CallBytes(c), s);
    AtFront(CallBytes(d), t);
    CallParsesBack(data, 0, c);
    CallParsesBack(data, 0, d);
    RawInjective(c.metas, d.metas);
    assert s == data[|CallBytes(c)|..];
    assert t == data[|CallBytes(d)|..];
  }

  datatype Version = V3 | V4 | V5

  function Discriminator(v: Version): byte {
    match v
    case V3 => 6
    case V4 => 13
    case V5 => 21
  }

  datatype Request = Request(
    version: Version,
    smartAccount: Address,
    treasury: Address,
    relayer: Address,
    nonce: int,
    call: Call,
    policy: int,
    networkFee: int,
    /** Bound by V4 only. */
    maxTotalFee: int,
    expiry: int,
    clientDataJSON: Bytes,
    programId: Address)

  datatype Instruction = Instruction(keys: seq<AccountKey>, programId: Address, data: Bytes)

  function FeeCap(q: Request): Bytes {
    if q.version == V4 then LE(q.maxTotalFee, 8) else []
  }

  function Trailer(q: Request): Bytes {
    LE(q.expiry, 8)
    + (LE(q.policy, 2) + (LE(q.networkFee, 8) + (FeeCap(q) + (LE(|q.clientDataJSON|, 2) + q.clientDataJSON))))
  }

  function Body(q: Request): Bytes {
    LE(q.nonce, 8) + (CallBytes(q.call) + Trailer(q))
  }

  predicate SignersAllowed(metas: seq<Meta>, smartAccount: Address, relayer: Address) {
    forall i :: 0 <= i < |metas| && metas[i].signer ==> metas[i].address == smartAccount || metas[i].address == relayer
  }

  function MetaKeys(metas: seq<Meta>, relayer: Address): (ks: seq<AccountKey>)
    ensures |ks| == |metas|
  {
    seq(|metas|, i requires 0 <= i < |metas| =>
      AccountKey(metas[i].address, metas[i].signer && metas[i].address == relayer, metas[i].writable))
  }

  function Keys(q: Request, sysvar: Address): seq<AccountKey> {
    [AccountKey(q.smartAccount, false, true),
     AccountKey(q.relayer, true, true),
     AccountKey(q.treasury, false, true),
     AccountKey(q.call.target, false, false),
     AccountKey(sysvar, false, false)] + MetaKeys(q.call.metas, q.relayer)
  }

  predicate Buildable(q: Request, canonicalTreasury: Address) {
    && q.call.target != q.programId
    && SignersAllowed(q.call.metas, q.smartAccount, q.relayer)
    && WithinCaps(q.call)
    && q.treasury == canonicalTreasury
  }

  /**
   `buildExecuteInstructionV3`, `V4` and `V5`: the same checks and keys, differing in the
   discriminator and V4's extra fee cap.
   */
  method BuildExecuteInstruction(q: Request, canonicalTreasury: Address, sysvar: Address)
    returns (r: Option<Instruction>)
    ensures r == if Buildable(q, canonicalTreasury)
                 then Some(Instruction(Keys(q, sysvar), q.programId, [Discriminator(q.version)] + Body(q)))
                 else None
  {
    if q.call.target == q.programId {
      return None;
    }
    var i := 0;
    while i < |q.call.metas|
      invariant 0 <= i <= |q.call.metas|
      invariant forall k :: 0 <= k < i && q.call.metas[k].signer ==>
        q.call.metas[k].address == q.smartAccount || q.call.metas[k].address == q.relayer
    {
      var m := q.call.metas[i];
      if m.signer && m.address != q.smartAccount && m.address != q.relayer {
        return None;
      }
      i := i + 1;
    }
    hide LE, CallBytes;
    var call := SerializeExecuteCall(q.call);
    if call.None? || q.treasury != canonicalTreasury {
      return None;
    }
    var data := [Discriminator(q.version)] + LE(q.nonce, 8) + call.value + LE(q.expiry, 8)
      + LE(q.policy, 2) + LE(q.networkFee, 8) + FeeCap(q) + LE(|q.clientDataJSON|, 2) + q.clientDataJSON;
    assert data == [Discriminator(q.version)] + Body(q);
    return Some(Instruction(Keys(q, sysvar), q.programId, data));
  }

  datatype Parsed = Parsed(
    nonce: int,
    call: ParsedCall,
    expiry: int,
    policy: int,
    networkFee: int,
    maxTotalFee: Option<int>,
    clientDataJSON: Bytes)

  /** The program's reads after the call data, from `cursor`. */
  function ParseTrailer(v: Version, data: Bytes, cursor: nat, nonce: nat, call: ParsedCall): Option<Parsed> {
    var expiry :- ReadUnsigned(data, cursor, 8);
    var policy :- ReadUnsigned(data, cursor + 8, 2);
    var networkFee :- ReadUnsigned(data, cursor + 10, 8);
    var cap := ReadUnsigned(data, cursor + 18, 8);
    if v == V4 && cap.None? then None else
    var json := cursor + if v == V4 then 26 else 18;
    var len :- ReadUnsigned(data, json, 2);
    var clientDataJSON :- Read(data, json + 2, len);
    Some(Parsed(nonce, call, Signed(expiry, 8), policy, networkFee, if v == V4 then cap else None, clientDataJSON))
  }

  /** What `execute::process` decodes from the data behind the discriminator. */
  function Parse(v: Version, data: Bytes): Option<Parsed> {
    var nonce :- ReadUnsigned(data, 0, 8);
    var call :- ParseCall(data, 8);
    ParseTrailer(v, data, 8 + |call.region|, nonce, call)
  }

  lemma TrailerParts(data: Bytes, at: nat, q: Request)
    requires At(data, at, Trailer(q))
    ensures At(data, at, LE(q.expiry, 8))
    ensures At(data, at + 8, LE(q.policy, 2))
    ensures At(data, at + 10, LE(q.networkFee, 8))
    ensures At(data, at + 18, FeeCap(q))
    ensures At(data, at + 18 + |FeeCap(q)|, LE(|q.clientDataJSON|, 2))
    ensures At(data, at + 20 + |FeeCap(q)|, q.clientDataJSON)
  {
    hide LE, At, FeeCap;
    var json := LE(|q.clientDataJSON|, 2) + q.clientDataJSON;
    AtSplit(data, at, LE(q.expiry, 8), LE(q.policy, 2) + (LE(q.networkFee, 8) + (FeeCap(q) + json)));
    AtSplit(data, at + 8, LE(q.policy, 2), LE(q.networkFee, 8) + (FeeCap(q) + json));
    AtSplit(data, at + 10, LE(q.networkFee, 8), FeeCap(q) + json);
    AtSplit(data, at + 18, FeeCap(q), json);
    AtSplit(data, at + 18 + |FeeCap(q)|, LE(|q.clientDataJSON|, 2), q.clientDataJSON);
  }

  /** The values the program obtains: each integer modulo its width, the JSON cut to its 16-bit length. */
  function Received(q: Request): Parsed {
    Parsed(
      q.nonce % Pow256(8),
      ParsedCall(q.call.target, Raw(q.call.metas), q.call.data, CallBytes(q.call)),
      Signed(q.expiry % Pow256(8), 8),
      q.policy % Pow256(2),
      q.networkFee % Pow256(8),
      if q.version == V4 then Some(q.maxTotalFee % Pow256(8)) else None,
      q.clientDataJSON[..|q.clientDataJSON| % 65536])
  }

  lemma TrailerParsesBack(data: Bytes, at: nat, q: Request, nonce: nat, call: ParsedCall)
    requires At(data, at, Trailer(q))
    requires nonce == q.nonce % Pow256(8)
    requires call == ParsedCall(q.call.target, Raw(q.call.metas), q.call.data, CallBytes(q.call))
    ensures ParseTrailer(q.version, data, at, nonce, call) == Some(Received(q))
  {
    hide LE, At, Pow256, Read, ReadUnsigned, Raw, CallBytes, Trailer, Signed;
    TrailerParts(data, at, q);
    ReadUnsignedAt(data, at, q.expiry, 8);
    ReadUnsignedAt(data, at + 8, q.policy, 2);
    ReadUnsignedAt(data, at + 10, q.networkFee, 8);
    if q.version == V4 {
      ReadUnsignedAt(data, at + 18, q.maxTotalFee, 8);
    }
    var json := q.clientDataJSON;
    ReadUnsignedAt(data, at + 18 + |FeeCap(q)|, |json|, 2);
    LengthPrefix(|json|);
    AtPrefix(data, at + 20 + |FeeCap(q)|, json, |json| % 65536);
    ReadAt(data, at + 20 + |FeeCap(q)|, json[..|json| % 65536]);
  }

  /** The program decodes every built instruction, and hashes the bytes `executeCallHash` hashed. */
  lemma ExecuteParsesBack(q: Request)
    requires WithinCaps(q.call)
    ensures Parse(q.version, Body(q)) == Some(Received(q))
  {
    hide LE, At, Pow256, Read, ReadUnsigned, ReadAddress, ReadByte, Raw, CallBytes, Trailer, Signed;
    hide ParseCall, ParseTrailer;
    var data := Body(q);
    AtFront(data, []);
    assert data + [] == data;
    AtSplit(data, 0, LE(q.nonce, 8), CallBytes(q.call) + Trailer(q));
    AtSplit(data, 8, CallBytes(q.call), Trailer(q));
    ReadUnsignedAt(data, 0, q.nonce, 8);
    CallParsesBack(data, 8, q.call);
    TrailerParsesBack(data, 8 + |CallBytes(q.call)|, q, q.nonce % Pow256(8),
      ParsedCall(q.call.target, Raw(q.call.metas), q.call.data, CallBytes(q.call)));
  }

  function Sent(q: Request): Parsed {
    Parsed(
      q.nonce,
      ParsedCall(q.call.target, Raw(q.call.metas), q.call.data, CallBytes(q.call)),
      q.expiry,
      q.policy,
      q.networkFee,
      if q.version == V4 then Some(q.maxTotalFee) else None,
      q.clientDataJSON)
  }

  predicate Unsigned(n: int, width: nat) {
    0 <= n < Pow256(width)
  }

  /** Every integer fits its field and the JSON's length fits 16 bits. */
  predicate Representable(q: Request) {
    && Unsigned(q.nonce, 8)
    && -(Pow256(8) / 2) <= q.expiry < Pow256(8) / 2
    && Unsigned(q.policy, 2)
    && Unsigned(q.networkFee, 8)
    && (q.version == V4 ==> Unsigned(q.maxTotalFee, 8))
    && |q.clientDataJSON| < 65536
  }

  lemma UnsignedIff(n: int, width: nat)
    ensures n % Pow256(width) == n <==> Unsigned(n, width)
  {
    if Unsigned(n, width) {
      UnsignedExact(n, width);
    }
  }

  lemma SignedIff(n: int)
    ensures Signed(n % Pow256(8), 8) == n <==> -(Pow256(8) / 2) <= n < Pow256(8) / 2
  {
    if -(Pow256(8) / 2) <= n < Pow256(8) / 2 {
      SignedExact(n, 8);
    } else {
      assert Pow256(8) == 256 * Pow256(7);
    }
  }

  lemma CutIff(json: Bytes)
    ensures json[..|json| % 65536] == json <==> |json| < 65536
  {
    if json[..|json| % 65536] == json {
      assert |json| % 65536 == |json|;
    }
  }

  /** The program receives what the caller asked for exactly when every field is representable. */
  lemma ExecuteDecodesExactly(q: Request)
    requires WithinCaps(q.call)
    ensures Parse(q.version, Body(q)) == Some(Sent(q)) <==> Representable(q)
  {
    hide Pow256, Signed, Parse, Body, Raw, CallBytes, Unsigned;
    ExecuteParsesBack(q);
    UnsignedIff(q.nonce, 8);
    UnsignedIff(q.policy, 2);
    UnsignedIff(q.networkFee, 8);
    UnsignedIff(q.maxTotalFee, 8);
    SignedIff(q.expiry);
    CutIff(q.clientDataJSON);
  }

  /** Execute instruction data of any version determines everything that was built into it. */
  lemma ExecuteInjective(p: Request, q: Request)
    requires WithinCaps(p.call) && WithinCaps(q.call) && Representable(p) && Representable(q)
    requires [Discriminator(p.version)] + Body(p) == [Discriminator(q.version)] + Body(q)
    ensures p.version == q.version && p.call == q.call
    ensures p.nonce == q.nonce && p.expiry == q.expiry && p.policy == q.policy
    ensures p.networkFee == q.networkFee && p.clientDataJSON == q.clientDataJSON
    ensures p.version == V4 ==> p.maxTotalFee == q.maxTotalFee
  {
    hide Body, Parse, Representable, WithinCaps, Raw, CallBytes;
    var dp, dq := [Discriminator(p.version)] + Body(p), [Discriminator(q.version)] + Body(q);
    assert dp[0] == Discriminator(p.version) && dq[0] == Discriminator(q.version);
    assert dp[1..] == Body(p) && dq[1..] == Body(q);
    ExecuteDecodesExactly(p);
    ExecuteDecodesExactly(q);
    RawInjective(p.call.metas, q.call.metas);
  }

  // The program's confinement checks on the outer accounts.

  /** How many metas from `i` on do not name the smart account. */
  function NonPda(metas: seq<RawMeta>, pda: Address, i: nat := 0): nat
    requires i <= |metas|
    decreases |metas| - i
  {
    if i == |metas| then 0
    else (if metas[i].address == pda then 0 else 1) + NonPda(metas, pda, i + 1)
  }

  predicate PdaSigns(metas: seq<RawMeta>, pda: Address) {
    exists i :: 0 <= i < |metas| && metas[i].address == pda && SignerBit(metas[i].flags)
  }

  /** `process` before it reads the vault: signer, treasury, target binding, delegation and exact coverage. */
  predicate Confined(
      keys: seq<AccountKey>, programId: Address, treasury: Address, sysvar: Address, call: ParsedCall)
  {
    && |keys| >= 5
    && keys[1].isSigner
    && keys[2].pubkey == treasury
    && keys[4].pubkey == sysvar
    && call.target != programId
    && keys[3].pubkey == call.target
    && PdaSigns(call.metas, keys[0].pubkey)
    && |keys| == 5 + NonPda(call.metas, keys[0].pubkey)
  }

  lemma {:induction false} NonPdaAll(metas: seq<RawMeta>, pda: Address, i: nat)
    requires i <= |metas|
    ensures NonPda(metas, pda, i) <= |metas| - i
    ensures NonPda(metas, pda, i) == |metas| - i <==> forall k :: i <= k < |metas| ==> metas[k].address != pda
    decreases |metas| - i
  {
    if i < |metas| {
      NonPdaAll(metas, pda, i + 1);
    }
  }

  /**
   The builder forwards every meta, the smart account's included, while the program wants
   that one left out. Its account list covers the call exactly when no meta names the smart
   account, and delegation needs such a meta: no built account list passes both checks.
   */
  lemma BuiltAccountsNeverConfined(q: Request, canonicalTreasury: Address, sysvar: Address)
    ensures |Keys(q, sysvar)| == 5 + NonPda(Raw(q.call.metas), q.smartAccount)
            <==> forall i :: 0 <= i < |q.call.metas| ==> q.call.metas[i].address != q.smartAccount
    ensures !Confined(Keys(q, sysvar), q.programId, canonicalTreasury, sysvar, Received(q).call)
  {
    hide Flags, CallBytes, Pow256, Signed;
    var raw := Raw(q.call.metas);
    NonPdaAll(raw, q.smartAccount, 0);
    assert forall i :: 0 <= i < |raw| ==> raw[i].address == q.call.metas[i].address;
    var keys := Keys(q, sysvar);
    assert keys[0].pubkey == q.smartAccount;
  }

  /**
   The account table of the program: the smart account, the paying relayer and the treasury are
   written, the relayer alone signs, the target and the sysvar are only read.
   */
  predicate AsDocumented(keys: seq<AccountKey>, smartAccount: Address, relayer: Address) {
    && |keys| >= 5
    && keys[0].pubkey == smartAccount && keys[1].pubkey == relayer
    && (forall i :: 0 <= i < 5 ==> (keys[i].isWritable <==> i < 3))
    && (forall i :: 0 <= i < |keys| && keys[i].isSigner ==> keys[i].pubkey == relayer)
    && keys[1].isSigner
  }

  /** What the inner call asks of an account, the outer key grants; the smart account signs by its seeds. */
  predicate Grants(keys: seq<AccountKey>, metas: seq<Meta>, smartAccount: Address) {
    && |keys| == 5 + |metas|
    && forall i :: 0 <= i < |metas| ==>
         && keys[5 + i].pubkey == metas[i].address
         && (metas[i].writable <==> keys[5 + i].isWritable)
         && (metas[i].signer ==> keys[5 + i].isSigner || metas[i].address == smartAccount)
         && (keys[5 + i].isSigner ==> metas[i].signer)
  }

  lemma KeysAsDocumented(q: Request, sysvar: Address)
    ensures AsDocumented(Keys(q, sysvar), q.smartAccount, q.relayer)
    ensures Grants(Keys(q, sysvar), q.call.metas, q.smartAccount)
       <==> SignersAllowed(q.call.metas, q.smartAccount, q.relayer)
  {
    var keys, metas := Keys(q, sysvar), q.call.metas;
    assert forall i :: 0 <= i < |metas| ==> keys[5 + i] == MetaKeys(metas, q.relayer)[i];
    assert forall i :: 5 <= i < |keys| ==> keys[i] == MetaKeys(metas, q.relayer)[i - 5];
    if Grants(keys, metas, q.smartAccount) {
      forall i | 0 <= i < |metas| && metas[i].signer
        ensures metas[i].address == q.smartAccount || metas[i].address == q.relayer
      {
        assert keys[5 + i].isSigner || metas[i].address == q.smartAccount;
      }
    }
  }

  lemma ParsedWithinCaps(v: Version, data: Bytes)
    ensures Parse(v, data).Some? ==>
              |Parse(v, data).value.call.metas| <= 64 && |Parse(v, data).value.call.data| <= 10240
  {
    hide Read, ReadUnsigned, ReadByte, ReadMetas, ReadAddress, Signed;
  }

  /**
   The builder accepts a request exactly when the program would parse its data back, the target
   is another program, the treasury is the canonical one, and every signer the call asks for
   can sign.
   */
  lemma BuildableExactly(q: Request, canonicalTreasury: Address, sysvar: Address)
    ensures Buildable(q, canonicalTreasury) <==>
            && Parse(q.version, Body(q)) == Some(Received(q))
            && q.call.target != q.programId
            && Keys(q, sysvar)[2].pubkey == canonicalTreasury
            && Grants(Keys(q, sysvar), q.call.metas, q.smartAccount)
  {
    hide Parse, Body, Received, Grants, SignersAllowed;
    KeysAsDocumented(q, sysvar);
    if WithinCaps(q.call) {
      ExecuteParsesBack(q);
    } else {
      BeyondCaps(q);
    }
  }

  lemma BeyondCaps(q: Request)
    requires !WithinCaps(q.call)
    ensures Parse(q.version, Body(q)) != Some(Received(q))
  {
    hide Parse, Body, Pow256, Signed, CallBytes;
    ParsedWithinCaps(q.version, Body(q));
  }

  // ---- The whole instruction ----

  /** `Instruction::try_from` on the discriminator, for the three execute versions. */
  function Dispatch(discriminator: byte): Option<Version> {
    if discriminator == 6 then Some(V3)
    else if discriminator == 13 then Some(V4)
    else if discriminator == 21 then Some(V5)
    else None
  }

  function ParseInstruction(data: Bytes): Option<(Version, Parsed)> {
    if data == [] then None
    else
      var v :- Dispatch(data[0]);
      var p :- Parse(v, data[1..]);
      Some((v, p))
  }

  /** The program dispatches built data to its own version and decodes it there. */
  lemma InstructionParsesBack(q: Request)
    requires WithinCaps(q.call)
    ensures ParseInstruction([Discriminator(q.version)] + Body(q)) == Some((q.version, Received(q)))
  {
    hide Parse, Body, Received;
    ExecuteParsesBack(q);
    assert ([Discriminator(q.version)] + Body(q))[1..] == Body(q);
  }

  /** The metas' outer keys without the smart account's. */
  function OtherKeys(metas: seq<Meta>, smartAccount: Address, relayer: Address, i: nat := 0): seq<AccountKey>
    requires i <= |metas|
    decreases |metas| - i
  {
    if i == |metas| then []
    else if metas[i].address == smartAccount then OtherKeys(metas, smartAccount, relayer, i + 1)
    else [MetaKeys(metas, relayer)[i]] + OtherKeys(metas, smartAccount, relayer, i + 1)
  }

  lemma {:induction false} OtherKeysCount(metas: seq<Meta>, smartAccount: Address, relayer: Address, i: nat)
    requires i <= |metas|
    ensures |OtherKeys(metas, smartAccount, relayer, i)| == NonPda(Raw(metas), smartAccount, i)
    decreases |metas| - i
  {
    hide Flags;
    if i < |metas| {
      assert Raw(metas)[i].address == metas[i].address;
      OtherKeysCount(metas, smartAccount, relayer, i + 1);
    }
  }

  /**
   With the smart account's metas left out of the outer keys, a buildable request is
   confined exactly when some meta delegates the smart account as a signer.
   */
  lemma PrunedAccountsConfined(q: Request, canonicalTreasury: Address, sysvar: Address)
    requires Buildable(q, canonicalTreasury)
    ensures var pruned := Keys(q, sysvar)[..5] + OtherKeys(q.call.metas, q.smartAccount, q.relayer);
            Confined(pruned, q.programId, canonicalTreasury, sysvar, Received(q).call) <==>
            exists i :: 0 <= i < |q.call.metas| && q.call.metas[i].address == q.smartAccount && q.call.metas[i].signer
  {
    hide CallBytes, Pow256, Signed, NonPda, OtherKeys, Flags, SignerBit;
    OtherKeysCount(q.call.metas, q.smartAccount, q.relayer, 0);
    var raw := Raw(q.call.metas);
    var keys := Keys(q, sysvar)[..5] + OtherKeys(q.call.metas, q.smartAccount, q.relayer);
    assert keys[0].pubkey == q.smartAccount && keys[3].pubkey == q.call.target;
    assert keys[1].isSigner && keys[2].pubkey == q.treasury && keys[4].pubkey == sysvar;
    forall i | 0 <= i < |raw|
      ensures raw[i].address == q.call.metas[i].address && SignerBit(raw[i].flags) == q.call.metas[i].signer
    {
      FlagBits(q.call.metas[i]);
    }
  }
}
