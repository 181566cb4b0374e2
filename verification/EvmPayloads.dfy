/**
 Every EVM authorization payload of `packages/core/src/evm.ts` and the payload builders of
 `packages/evm/src/adapter.ts`: V1 to V4 owner operations, permissions (ids, grants,
 session execution), ERC-7579 single and batch execution, modules and ERC-1271.
 A preimage is `domain ‖ op-tag ‖ parts`, hashed with keccak256 (not modelled here).
 */
module EvmPayloads {
  import opened Bytes
  import opened Wire
  import SolanaPayloads

  /** Scope of a session permission, without the salt. */
  datatype Scope = Scope(
    sessionX: Bytes, sessionY: Bytes, kind: int, target: Bytes, selector: Bytes, token: Bytes, to: Bytes,
    nftId: int, validUntil: int)

  datatype Message =
    | ExecuteV1(
        chainId: int, account: Bytes, nonce: int, to: Bytes, value: int, dataHash: Bytes, deadline: int,
        relayFee: int, treasury: Bytes)
    | ExecuteV2(
        chainId: int, account: Bytes, nonce: int, to: Bytes, value: int, dataHash: Bytes, deadline: int,
        maxFee: int, policy: int)
    | UpdateAuthorityV2(chainId: int, account: Bytes, nonce: int, x: Bytes, y: Bytes, deadline: int)
    | ActivateV2(
        salt: Bytes, x: Bytes, y: Bytes, rpIdHash: Bytes, maxFee: int, policy: int, deadline: int,
        chainId: int, factory: Bytes)
    | ExecuteV3(
        chainId: int, account: Bytes, nonce: int, to: Bytes, value: int, dataHash: Bytes, deadline: int,
        policy: int)
    | UpdateAuthorityV3(chainId: int, account: Bytes, nonce: int, x: Bytes, y: Bytes, deadline: int)
    | ActivateV3(salt: Bytes, x: Bytes, y: Bytes, policy: int, deadline: int, chainId: int, factory: Bytes)
    | Sign1271(chainId: int, account: Bytes, hash: Bytes)
    | ExecuteV4(
        chainId: int, account: Bytes, nonce: int, to: Bytes, value: int, dataHash: Bytes, deadline: int,
        policy: int, maxFee: int)
    | ActivateV4(
        salt: Bytes, x: Bytes, y: Bytes, policy: int, maxFee: int, deadline: int, chainId: int, factory: Bytes)
    | PermissionId(legacy: bool, chainId: int, account: Bytes, scope: Scope, salt: Bytes)
    | Grant(
        chainId: int, account: Bytes, permissionId: Bytes, scope: Scope, perTxCap: int, totalLimit: int,
        feeLimit: int, validAfter: int, nonce: int, deadline: int)
    | Revoke(chainId: int, account: Bytes, permissionId: Bytes, nonce: int, deadline: int)
    | PermExecV1(
        chainId: int, account: Bytes, permissionId: Bytes, seqNo: int, to: Bytes, value: int, dataHash: Bytes,
        deadline: int, policy: int)
    | PermExec(
        chainId: int, account: Bytes, permissionId: Bytes, seqNo: int, to: Bytes, value: int, dataHash: Bytes,
        deadline: int, policy: int, maxFee: int)
    | BatchPermExec(
        chainId: int, account: Bytes, permissionId: Bytes, seqNo: int, opsHash: Bytes, deadline: int,
        policy: int, maxFee: int)
    | Exec7579(
        chainId: int, account: Bytes, nonce: int, to: Bytes, value: int, dataHash: Bytes, deadline: int,
        policy: int)
    | Exec7579V4(
        chainId: int, account: Bytes, nonce: int, to: Bytes, value: int, dataHash: Bytes, deadline: int,
        policy: int, maxFee: int)
    | BatchExec(
        chainId: int, account: Bytes, nonce: int, opsHash: Bytes, deadline: int, policy: int, maxFee: int)
    | Module(
        opTag: int, chainId: int, account: Bytes, moduleType: int, moduleAddr: Bytes, initDataHash: Bytes,
        nonce: int, deadline: int)

  function Addr(b: Bytes): Field { Fixed(20, b) }
  function Hash(b: Bytes): Field { Loose(32, b) }
  function B32(n: int): Field { Be(32, n) }
  function B8(n: int): Field { Be(8, n) }
  function B2(n: int): Field { Be(2, n) }

  /** `MODE_BATCH_HEX`: CallType 0x01, everything else zero. */
  function ModeBatch(): Bytes {
    [1] + Zeros(31)
  }

  /** The list each builder hands to `concat`, in order. */
  function Parts(m: Message): seq<Field> {
    match m
    case ExecuteV1(chain, account, nonce, to, value, dataHash, deadline, relayFee, treasury) =>
      [B32(chain), Addr(account), B8(nonce), Addr(to), B32(value), Hash(dataHash), B8(deadline), B32(relayFee),
       Addr(treasury)]
    case ExecuteV2(chain, account, nonce, to, value, dataHash, deadline, maxFee, policy) =>
      [B32(chain), Addr(account), B8(nonce), Addr(to), B32(value), Hash(dataHash), B8(deadline), B32(maxFee),
       B2(policy)]
    case UpdateAuthorityV2(chain, account, nonce, x, y, deadline) =>
      [B32(chain), Addr(account), B8(nonce), Hash(x), Hash(y), B8(deadline)]
    case ActivateV2(salt, x, y, rpIdHash, maxFee, policy, deadline, chain, factory) =>
      [Hash(salt), Hash(x), Hash(y), Hash(rpIdHash), B32(maxFee), B2(policy), B8(deadline), B32(chain),
       Addr(factory)]
    case ExecuteV3(chain, account, nonce, to, value, dataHash, deadline, policy) =>
      [B32(chain), Addr(account), B8(nonce), Addr(to), B32(value), Hash(dataHash), B8(deadline), B2(policy)]
    case UpdateAuthorityV3(chain, account, nonce, x, y, deadline) =>
      [B32(chain), Addr(account), B8(nonce), Hash(x), Hash(y), B8(deadline)]
    case ActivateV3(salt, x, y, policy, deadline, chain, factory) =>
      [Hash(salt), Hash(x), Hash(y), B2(policy), B8(deadline), B32(chain), Addr(factory)]
    case Sign1271(chain, account, hash) => [B32(chain), Addr(account), Hash(hash)]
    case ExecuteV4(chain, account, nonce, to, value, dataHash, deadline, policy, maxFee) =>
      [B32(chain), Addr(account), B8(nonce), Addr(to), B32(value), Hash(dataHash), B8(deadline), B2(policy),
       B32(maxFee)]
    case ActivateV4(salt, x, y, policy, maxFee, deadline, chain, factory) =>
      [Fixed(32, salt), Fixed(32, x), Fixed(32, y), B2(policy), B32(maxFee), B8(deadline), B32(chain),
       Addr(factory)]
    case PermissionId(_, chain, account, s, salt) =>
      [B32(chain), Addr(account), Fixed(32, s.sessionX), Fixed(32, s.sessionY), U8(s.kind), Addr(s.target),
       Fixed(4, s.selector), Addr(s.token), Addr(s.to), B32(s.nftId), B8(s.validUntil), Fixed(32, salt)]
    case Grant(chain, account, id, s, perTxCap, totalLimit, feeLimit, validAfter, nonce, deadline) =>
      [B32(chain), Addr(account), Hash(id), Hash(s.sessionX), Hash(s.sessionY), U8(s.kind), Addr(s.target),
       Loose(4, s.selector), Addr(s.token), Addr(s.to), B32(perTxCap), B32(totalLimit), B32(feeLimit),
       B32(s.nftId), B8(validAfter), B8(s.validUntil), B8(nonce), B8(deadline)]
    case Revoke(chain, account, id, nonce, deadline) =>
      [B32(chain), Addr(account), Hash(id), B8(nonce), B8(deadline)]
    case PermExecV1(chain, account, id, seqNo, to, value, dataHash, deadline, policy) =>
      [B32(chain), Addr(account), Hash(id), B8(seqNo), Addr(to), B32(value), Hash(dataHash), B8(deadline),
       B2(policy)]
    case PermExec(chain, account, id, seqNo, to, value, dataHash, deadline, policy, maxFee) =>
      [B32(chain), Addr(account), Hash(id), B8(seqNo), Addr(to), B32(value), Hash(dataHash), B8(deadline),
       B2(policy), B32(maxFee)]
    case BatchPermExec(chain, account, id, seqNo, opsHash, deadline, policy, maxFee) =>
      [Fixed(32, ModeBatch()), B32(chain), Addr(account), Fixed(32, id), B8(seqNo), Fixed(32, opsHash),
       B8(deadline), B2(policy), B32(maxFee)]
    case Exec7579(chain, account, nonce, to, value, dataHash, deadline, policy) =>
      [B32(chain), Addr(account), B8(nonce), Addr(to), B32(value), Hash(dataHash), B8(deadline), B2(policy)]
    case Exec7579V4(chain, account, nonce, to, value, dataHash, deadline, policy, maxFee) =>
      [B32(chain), Addr(account), B8(nonce), Addr(to), B32(value), Hash(dataHash), B8(deadline), B2(policy),
       B32(maxFee)]
    case BatchExec(chain, account, nonce, opsHash, deadline, policy, maxFee) =>
      [Fixed(32, ModeBatch()), B32(chain), Addr(account), B8(nonce), Fixed(32, opsHash), B8(deadline),
       B2(policy), B32(maxFee)]
    case Module(_, chain, account, moduleType, moduleAddr, initDataHash, nonce, deadline) =>
      [B32(chain), Addr(account), B32(moduleType), Addr(moduleAddr), Hash(initDataHash), B8(nonce), B8(deadline)]
  }

  /** 1-4: SMART_ACCOUNT v1-v4. 5, 6: PERMISSION v1, v2. */
  function Domain(m: Message): (d: nat)
    ensures 1 <= d <= 6
  {
    if m.ExecuteV1? then 1
    else if m.ExecuteV2? || m.UpdateAuthorityV2? || m.ActivateV2? then 2
    else if m.ExecuteV3? || m.UpdateAuthorityV3? || m.ActivateV3? || m.Sign1271? then 3
    else if m.ExecuteV4? || m.ActivateV4? then 4
    else if m.PermExecV1? || (m.PermissionId? && m.legacy) then 5
    else 6
  }

  /** V1 payloads and permission ids carry no op-tag. */
  function TagOf(m: Message): Bytes {
    match m
    case ExecuteV1(_, _, _, _, _, _, _, _, _) => []
    case PermissionId(_, _, _, _, _) => []
    case ExecuteV2(_, _, _, _, _, _, _, _, _) => [0x01]
    case ExecuteV3(_, _, _, _, _, _, _, _) => [0x01]
    case ExecuteV4(_, _, _, _, _, _, _, _, _) => [0x01]
    case UpdateAuthorityV2(_, _, _, _, _, _) => [0x03]
    case UpdateAuthorityV3(_, _, _, _, _, _) => [0x03]
    case ActivateV2(_, _, _, _, _, _, _, _, _) => [0x05]
    case ActivateV3(_, _, _, _, _, _, _) => [0x05]
    case ActivateV4(_, _, _, _, _, _, _, _) => [0x05]
    case Grant(_, _, _, _, _, _, _, _, _, _) => [0x10]
    case Revoke(_, _, _, _, _) => [0x11]
    case PermExecV1(_, _, _, _, _, _, _, _, _) => [0x12]
    case PermExec(_, _, _, _, _, _, _, _, _, _) => [0x12]
    case BatchPermExec(_, _, _, _, _, _, _, _) => [0x12]
    case Exec7579(_, _, _, _, _, _, _, _) => [0x15]
    case Exec7579V4(_, _, _, _, _, _, _, _, _) => [0x15]
    case BatchExec(_, _, _, _, _, _, _) => [0x15]
    case Sign1271(_, _, _) => [0x16]
    case Module(opTag, _, _, _, _, _, _, _) => [opTag % 256]
  }

  function DomainOf(d: nat): Bytes
    requires 1 <= d <= 6
  {
    if d <= 4 then SolanaPayloads.Ascii("PID|EVM|SMART_ACCOUNT|v") + [48 + d]
    else SolanaPayloads.Ascii("PID|EVM|PERMISSION|v") + [44 + d]
  }

  function Preimage(m: Message): Bytes {
    DomainOf(Domain(m)) + (TagOf(m) + Concat(Parts(m)))
  }

  /** What the builder hashes, or None where it throws; a grant also rejects financial kinds. */
  function Build(m: Message): Option<Bytes> {
    if AllAccepted(Parts(m)) && (m.Grant? ==> m.scope.kind == 1) then Some(Preimage(m)) else None
  }

  /** Same domain, same operation, and fields that agree up to truncation of `kind` and `opTag`. */
  predicate SameMessage(m: Message, n: Message) {
    Domain(m) == Domain(n) && TagOf(m) == TagOf(n) && SameFields(Parts(m), Parts(n))
  }

  // ------------------------------------------------------------------
  // Domains and lengths identify the shape
  // ------------------------------------------------------------------

  lemma DomainBytes(d: nat)
    requires 1 <= d <= 6
    ensures var b := DomainOf(d);
            if d <= 4 then |b| == 24 && b[8] == 'S' as int && b[23] == 48 + d
            else |b| == 21 && b[8] == 'P' as int && b[20] == 44 + d
  {
  }

  lemma DomainPrefixFree(d: nat, e: nat, xs: Bytes, ys: Bytes)
    requires 1 <= d <= 6 && 1 <= e <= 6
    requires DomainOf(d) + xs == DomainOf(e) + ys
    ensures d == e && xs == ys
  {
    hide DomainOf;
    DomainBytes(d);
    DomainBytes(e);
    var p, q := DomainOf(d) + xs, DomainOf(e) + ys;
    assert p[8] == DomainOf(d)[8] && q[8] == DomainOf(e)[8];
    if d <= 4 {
      assert p[23] == DomainOf(d)[23] && q[23] == DomainOf(e)[23];
    } else {
      assert p[20] == DomainOf(d)[20] && q[20] == DomainOf(e)[20];
    }
    AppendInjective(DomainOf(d), xs, DomainOf(e), ys);
  }

  /** Op-tag and parts together, by shape. Within one domain all of these differ. */
  function BodySize(m: Message): nat {
    match m
    case ExecuteV1(_, _, _, _, _, _, _, _, _) => 204
    case ExecuteV2(_, _, _, _, _, _, _, _, _) => 187
    case UpdateAuthorityV2(_, _, _, _, _, _) => 133
    case ActivateV2(_, _, _, _, _, _, _, _, _) => 223
    case ExecuteV3(_, _, _, _, _, _, _, _) => 155
    case UpdateAuthorityV3(_, _, _, _, _, _) => 133
    case ActivateV3(_, _, _, _, _, _, _) => 159
    case Sign1271(_, _, _) => 85
    case ExecuteV4(_, _, _, _, _, _, _, _, _) => 187
    case ActivateV4(_, _, _, _, _, _, _, _) => 191
    case PermissionId(_, _, _, _, _) => 253
    case Grant(_, _, _, _, _, _, _, _, _, _) => 374
    case Revoke(_, _, _, _, _) => 101
    case PermExecV1(_, _, _, _, _, _, _, _, _) => 187
    case PermExec(_, _, _, _, _, _, _, _, _, _) => 219
    case BatchPermExec(_, _, _, _, _, _, _, _) => 199
    case Exec7579(_, _, _, _, _, _, _, _) => 155
    case Exec7579V4(_, _, _, _, _, _, _, _, _) => 187
    case BatchExec(_, _, _, _, _, _, _) => 167
    case Module(_, _, _, _, _, _, _, _) => 153
  }

  lemma SizeByThrees(fs: seq<Field>)
    ensures |fs| == 3 ==> Size(fs) == W3(fs, 0)
    ensures |fs| == 5 ==> Size(fs) == W3(fs, 0) + fs[3].width + fs[4].width
    ensures |fs| == 6 ==> Size(fs) == W3(fs, 0) + W3(fs, 3)
    ensures |fs| == 7 ==> Size(fs) == W3(fs, 0) + W3(fs, 3) + fs[6].width
    ensures |fs| == 8 ==> Size(fs) == W3(fs, 0) + W3(fs, 3) + fs[6].width + fs[7].width
    ensures |fs| == 9 ==> Size(fs) == W3(fs, 0) + W3(fs, 3) + W3(fs, 6)
    ensures |fs| == 10 ==> Size(fs) == W3(fs, 0) + W3(fs, 3) + W3(fs, 6) + fs[9].width
    ensures |fs| == 12 ==> Size(fs) == W3(fs, 0) + W3(fs, 3) + W3(fs, 6) + W3(fs, 9)
    ensures |fs| == 18 ==>
      Size(fs) == W3(fs, 0) + W3(fs, 3) + W3(fs, 6) + W3(fs, 9) + W3(fs, 12) + W3(fs, 15)
  {
    if |fs| >= 3 { SizeOf3(fs, 0); }
    if |fs| >= 6 { SizeOf3(fs, 3); }
    if |fs| >= 9 { SizeOf3(fs, 6); }
    if |fs| >= 12 { SizeOf3(fs, 9); }
    if |fs| >= 15 { SizeOf3(fs, 12); }
    if |fs| >= 18 { SizeOf3(fs, 15); }
    if |fs| == 5 || |fs| == 8 {
      assert Size(fs, |fs| - 2) == fs[|fs| - 2].width + (fs[|fs| - 1].width + Size(fs, |fs|));
    }
  }

  function W3(fs: seq<Field>, i: nat): nat
    requires i + 3 <= |fs|
  {
    fs[i].width + fs[i + 1].width + fs[i + 2].width
  }

  lemma AccountBodySizes(m: Message)
    requires Domain(m) <= 4
    ensures |TagOf(m)| + Size(Parts(m)) == BodySize(m)
  {
    hide Size;
    SizeByThrees(Parts(m));
  }

  lemma PermissionBodySizes(m: Message)
    requires Domain(m) > 4
    ensures |TagOf(m)| + Size(Parts(m)) == BodySize(m)
  {
    hide Size;
    SizeByThrees(Parts(m));
  }

  // Within one domain the body length fixes the constructor: one lemma per group of domains.

  lemma EqualAtEveryIndex(fs: seq<Field>, gs: seq<Field>)
    requires fs == gs && |fs| >= 3
    ensures fs[0] == gs[0] && fs[1] == gs[1] && fs[2] == gs[2]
    ensures |fs| > 4 ==> fs[3] == gs[3] && fs[4] == gs[4]
    ensures |fs| > 5 ==> fs[5] == gs[5]
    ensures |fs| > 6 ==> fs[6] == gs[6]
    ensures |fs| > 7 ==> fs[7] == gs[7]
    ensures |fs| > 8 ==> fs[8] == gs[8]
    ensures |fs| > 9 ==> fs[9] == gs[9]
    ensures |fs| > 11 ==> fs[10] == gs[10] && fs[11] == gs[11]
    ensures |fs| > 17 ==> fs[12] == gs[12] && fs[13] == gs[13] && fs[14] == gs[14]
    ensures |fs| > 17 ==> fs[15] == gs[15] && fs[16] == gs[16] && fs[17] == gs[17]
  {
  }

  lemma ShapeEarlyAccount(m: Message, n: Message)
    requires Domain(m) == Domain(n) <= 2 && BodySize(m) == BodySize(n)
    ensures TagOf(m) == TagOf(n) && SameTypes(Parts(m), Parts(n))
  {
  }

  lemma ShapeLateAccount(m: Message, n: Message)
    requires 3 <= Domain(m) == Domain(n) <= 4 && BodySize(m) == BodySize(n)
    ensures TagOf(m) == TagOf(n) && SameTypes(Parts(m), Parts(n))
  {
  }

  lemma AccountFromParts(m: Message, n: Message)
    requires Domain(m) == Domain(n) <= 4 && BodySize(m) == BodySize(n) && Parts(m) == Parts(n)
    ensures m == n
  {
    EqualAtEveryIndex(Parts(m), Parts(n));
  }

  predicate Executes(m: Message) {
    m.PermExec? || m.BatchPermExec? || m.Exec7579? || m.Exec7579V4? || m.BatchExec?
  }

  lemma ShapeExecution(m: Message, n: Message)
    requires Executes(m) && Executes(n) && BodySize(m) == BodySize(n)
    ensures SameTypes(Parts(m), Parts(n)) && |TagOf(m)| == |TagOf(n)|
  {
  }

  predicate CarriesScope(m: Message) {
    m.PermissionId? || m.Grant?
  }

  lemma ShapeScoped(m: Message, n: Message)
    requires CarriesScope(m) && CarriesScope(n) && BodySize(m) == BodySize(n)
    ensures SameTypes(Parts(m), Parts(n)) && |TagOf(m)| == |TagOf(n)|
  {
  }

  lemma ShapeManagement(m: Message, n: Message)
    requires !Executes(m) && !CarriesScope(m) && !Executes(n) && !CarriesScope(n)
    requires Domain(m) == Domain(n) > 4 && BodySize(m) == BodySize(n)
    ensures SameTypes(Parts(m), Parts(n)) && |TagOf(m)| == |TagOf(n)|
  {
  }

  lemma ShapePermission(m: Message, n: Message)
    requires Domain(m) == Domain(n) > 4 && BodySize(m) == BodySize(n)
    ensures SameTypes(Parts(m), Parts(n)) && |TagOf(m)| == |TagOf(n)|
  {
    hide Parts, TagOf, SameTypes;
    if Executes(m) {
      ShapeExecution(m, n);
    } else if CarriesScope(m) {
      ShapeScoped(m, n);
    } else {
      ShapeManagement(m, n);
    }
  }

  lemma PermissionFromParts(m: Message, n: Message)
    requires Domain(m) == Domain(n) > 4 && BodySize(m) == BodySize(n)
    requires Parts(m) == Parts(n) && (m.Module? ==> m.opTag == n.opTag)
    ensures m == n
  {
    EqualAtEveryIndex(Parts(m), Parts(n));
  }

  lemma ShapeFromHeader(m: Message, n: Message)
    requires Domain(m) == Domain(n) && |TagOf(m)| + Size(Parts(m)) == |TagOf(n)| + Size(Parts(n))
    ensures BodySize(m) == BodySize(n)
    ensures SameTypes(Parts(m), Parts(n)) && |TagOf(m)| == |TagOf(n)|
  {
    hide Domain, BodySize, TagOf, Parts, Size, SameTypes;
    if Domain(m) <= 4 {
      AccountBodySizes(m);
      AccountBodySizes(n);
      if Domain(m) <= 2 {
        ShapeEarlyAccount(m, n);
      } else {
        ShapeLateAccount(m, n);
      }
    } else {
      PermissionBodySizes(m);
      PermissionBodySizes(n);
      ShapePermission(m, n);
    }
  }

  lemma HeaderSplit(m: Message, n: Message)
    ensures Preimage(m) == Preimage(n)
       <==> Domain(m) == Domain(n) && TagOf(m) + Concat(Parts(m)) == TagOf(n) + Concat(Parts(n))
  {
    hide DomainOf, Domain, TagOf, Parts, Concat;
    if Preimage(m) == Preimage(n) {
      DomainPrefixFree(Domain(m), Domain(n), TagOf(m) + Concat(Parts(m)), TagOf(n) + Concat(Parts(n)));
    }
  }

  lemma EqualPreimagesSameMessage(m: Message, n: Message)
    requires AllAccepted(Parts(m)) && AllSized(Parts(m)) && AllAccepted(Parts(n)) && AllSized(Parts(n))
    requires Preimage(m) == Preimage(n)
    ensures SameMessage(m, n) && BodySize(m) == BodySize(n)
  {
    hide Preimage, Parts, Domain, TagOf, Concat, Size, AllAccepted, Sized, SameTypes, SameFields, BodySize;
    HeaderSplit(m, n);
    ConcatSize(Parts(m), 0);
    ConcatSize(Parts(n), 0);
    ShapeFromHeader(m, n);
    AppendInjective(TagOf(m), Concat(Parts(m)), TagOf(n), Concat(Parts(n)));
    ConcatSame(Parts(m), Parts(n));
  }

  lemma SameMessageEqualPreimages(m: Message, n: Message)
    requires AllAccepted(Parts(m)) && AllSized(Parts(m)) && AllAccepted(Parts(n)) && AllSized(Parts(n))
    requires SameMessage(m, n)
    ensures Preimage(m) == Preimage(n)
  {
    hide Preimage, Parts, Domain, TagOf, Concat, AllAccepted, AllSized, SameTypes, SameFields;
    HeaderSplit(m, n);
    SameFieldsSameTypes(Parts(m), Parts(n));
    ConcatSame(Parts(m), Parts(n));
  }

  /**
   Two EVM builder calls hash the same bytes exactly when they are the same operation in
   the same domain with the same fields. A single call never shares a payload with a batch
   and an untagged permission id never shares one with a tagged payload.
   */
  lemma PreimagesIdentifyMessages(m: Message, n: Message)
    requires Build(m).Some? && AllSized(Parts(m)) && Build(n).Some? && AllSized(Parts(n))
    ensures Build(m) == Build(n) <==> SameMessage(m, n)
  {
    hide Preimage, Parts, SameMessage, AllAccepted, AllSized;
    if Build(m) == Build(n) {
      EqualPreimagesSameMessage(m, n);
    } else if SameMessage(m, n) {
      SameMessageEqualPreimages(m, n);
    }
  }

  /** `kind` and `opTag` survive the one-byte truncation. */
  predicate ByteTags(m: Message) {
    AllInRange(Parts(m)) && (m.Module? ==> 0 <= m.opTag < 256)
  }

  /** With one-byte kinds and op-tags, equal preimages are equal requests. */
  lemma PreimageInjective(m: Message, n: Message)
    requires Build(m).Some? && AllSized(Parts(m)) && ByteTags(m)
    requires Build(n).Some? && AllSized(Parts(n)) && ByteTags(n)
    requires Build(m) == Build(n)
    ensures m == n
  {
    hide Preimage, Parts, Domain, TagOf, Concat, Size, Accepted, Sized, InRange, SameField, BodySize;
    EqualPreimagesSameMessage(m, n);
    var fs, gs := Parts(m), Parts(n);
    forall i | 0 <= i < |fs|
      ensures fs[i] == gs[i]
    {
      InRangeSame(fs[i], gs[i]);
    }
    assert fs == gs;
    MessageFromParts(m, n);
  }

  lemma MessageFromParts(m: Message, n: Message)
    requires Domain(m) == Domain(n) && BodySize(m) == BodySize(n) && TagOf(m) == TagOf(n)
    requires Parts(m) == Parts(n) && ByteTags(m) && ByteTags(n)
    ensures m == n
  {
    if Domain(m) <= 4 {
      AccountFromParts(m, n);
    } else {
      if m.Module? {
        assert TagOf(m)[0] == m.opTag;
        assert n.Module? && TagOf(n)[0] == n.opTag;
      }
      PermissionFromParts(m, n);
    }
  }

  /**
   A grant payload leaves the scope's salt out; it is bound through the permission id.
   With a collision-free hash, equal grants whose ids were computed from their scopes
   also agree on the salt.
   */
  lemma GrantBindsSalt(hash: Bytes -> Bytes, g1: Message, salt1: Bytes, g2: Message, salt2: Bytes)
    requires g1.Grant? && g2.Grant?
    ensures && Issued(hash, g1, salt1) && Issued(hash, g2, salt2) && Build(g1) == Build(g2)
            && (g1.permissionId == g2.permissionId ==> Build(IdOf(g1, salt1)) == Build(IdOf(g2, salt2)))
            ==> g1 == g2 && salt1 == salt2
  {
    hide Preimage;
    if && Issued(hash, g1, salt1) && Issued(hash, g2, salt2) && Build(g1) == Build(g2)
       && (g1.permissionId == g2.permissionId ==> Build(IdOf(g1, salt1)) == Build(IdOf(g2, salt2)))
    {
      KindOneInRange(g1);
      KindOneInRange(g2);
      PreimageInjective(g1, g2);
      EqualPreimagesSameMessage(IdOf(g1, salt1), IdOf(g2, salt2));
      assert SameField(Parts(IdOf(g1, salt1))[11], Parts(IdOf(g2, salt2))[11]);
    }
  }

  /** The permission id of a grant's scope and salt. */
  function IdOf(g: Message, salt: Bytes): Message
    requires g.Grant?
  {
    PermissionId(false, g.chainId, g.account, g.scope, salt)
  }

  /** The grant is well formed and carries the id computed from its scope and salt. */
  predicate Issued(hash: Bytes -> Bytes, g: Message, salt: Bytes)
    requires g.Grant?
  {
    && Build(g).Some? && AllSized(Parts(g)) && Build(IdOf(g, salt)).Some?
    && g.permissionId == hash(Build(IdOf(g, salt)).value)
  }

  lemma KindOneInRange(g: Message)
    requires g.Grant? && g.scope.kind == 1
    ensures ByteTags(g)
  {
    assert Pow256(1) == 256;
  }

  // ---- What the unchecked coordinates do ----

  /**
   Within any one shape, for all widths of its unmeasured fields: one payload exactly when
   domain, tag and measured fields agree, and the bytes from the first to the last unmeasured
   field do.
   */
  lemma UnmeasuredWithinShape(m: Message, n: Message)
    requires SameTypes(Parts(m), Parts(n)) && |TagOf(m)| == |TagOf(n)| && Build(m).Some? && Build(n).Some?
    ensures Build(m) == Build(n) <==>
            Domain(m) == Domain(n) && TagOf(m) == TagOf(n) && SameUnmeasured(Parts(m), Parts(n))
  {
    hide Preimage, Parts, Domain, TagOf, Concat, AllAccepted, SameUnmeasured, SameTypes;
    HeaderSplit(m, n);
    AppendInjective(TagOf(m), Concat(Parts(m)), TagOf(n), Concat(Parts(n)));
    UnmeasuredFields(Parts(m), Parts(n));
  }

  /** Builders that concatenate coordinates, and salts, without looking at their lengths. */
  predicate Unmeasured(m: Message) {
    m.UpdateAuthorityV2? || m.UpdateAuthorityV3? || m.ActivateV2? || m.ActivateV3?
  }

  /** The unchecked bytes, one after the other. */
  function Block(m: Message): Bytes
    requires Unmeasured(m)
  {
    match m
    case UpdateAuthorityV2(_, _, _, x, y, _) => x + y
    case UpdateAuthorityV3(_, _, _, x, y, _) => x + y
    case ActivateV2(salt, x, y, rpIdHash, _, _, _, _, _) => salt + (x + (y + rpIdHash))
    case ActivateV3(salt, x, y, _, _, _, _) => salt + (x + y)
  }

  /** The request without them. */
  function Checked(m: Message): Message
    requires Unmeasured(m)
  {
    match m
    case UpdateAuthorityV2(chain, account, nonce, _, _, deadline) =>
      UpdateAuthorityV2(chain, account, nonce, [], [], deadline)
    case UpdateAuthorityV3(chain, account, nonce, _, _, deadline) =>
      UpdateAuthorityV3(chain, account, nonce, [], [], deadline)
    case ActivateV2(_, _, _, _, maxFee, policy, deadline, chain, factory) =>
      ActivateV2([], [], [], [], maxFee, policy, deadline, chain, factory)
    case ActivateV3(_, _, _, policy, deadline, chain, factory) =>
      ActivateV3([], [], [], policy, deadline, chain, factory)
  }

  /** Where the unchecked fields start and end. */
  function BlockStart(m: Message): nat { if m.UpdateAuthorityV2? || m.UpdateAuthorityV3? then 3 else 0 }
  function BlockEnd(m: Message): nat { if m.ActivateV2? then 4 else if m.ActivateV3? then 3 else 5 }

  predicate SameKind(m: Message, n: Message) {
    Unmeasured(m) && Unmeasured(n) && Domain(m) == Domain(n) && TagOf(m) == TagOf(n)
  }

  lemma KindTypes(m: Message, n: Message)
    requires SameKind(m, n)
    ensures SameTypes(Parts(m), Parts(n)) && BlockStart(m) == BlockStart(n) && BlockEnd(m) == BlockEnd(n)
  {
    assert TagOf(m)[0] == TagOf(n)[0];
  }

  lemma OnlyBlockLoose(m: Message, h: nat)
    requires Unmeasured(m) && h < |Parts(m)| && !(BlockStart(m) <= h < BlockEnd(m))
    ensures Sized(Parts(m)[h])
  {
  }

  lemma BlockIsSpan(m: Message)
    requires Unmeasured(m)
    ensures BlockStart(m) <= BlockEnd(m) <= |Parts(m)|
    ensures Span(Parts(m), BlockStart(m), BlockEnd(m)) == Block(m)
  {
    var fs, i, j := Parts(m), BlockStart(m), BlockEnd(m);
    assert Span(fs, j, j) == [];
    assert Span(fs, j - 1, j) == Encode(fs[j - 1]);
    assert Span(fs, j - 2, j) == Encode(fs[j - 2]) + Encode(fs[j - 1]);
    if j - i > 2 {
      assert Span(fs, j - 3, j) == Encode(fs[j - 3]) + Span(fs, j - 2, j);
    }
  }

  /** Every field outside the block agrees. */
  predicate SameOutside(m: Message, n: Message) {
    |Parts(m)| == |Parts(n)|
    && forall h :: 0 <= h < |Parts(m)| && !(BlockStart(m) <= h < BlockEnd(m)) ==> SameField(Parts(m)[h], Parts(n)[h])
  }

  lemma CheckedToFields(m: Message, n: Message)
    requires SameKind(m, n) && Checked(m) == Checked(n)
    ensures SameOutside(m, n)
  {
    hide Pow256;
  }

  lemma FieldsToChecked(m: Message, n: Message)
    requires SameKind(m, n) && SameOutside(m, n)
    ensures Checked(m) == Checked(n)
  {
    hide Pow256;
    assert TagOf(m)[0] == TagOf(n)[0];
    var fs, gs := Parts(m), Parts(n);
    if m.UpdateAuthorityV2? || m.UpdateAuthorityV3? {
      assert SameField(fs[0], gs[0]) && SameField(fs[1], gs[1]) && SameField(fs[2], gs[2]) && SameField(fs[5], gs[5]);
    } else {
      var j := BlockEnd(m);
      assert SameField(fs[j], gs[j]) && SameField(fs[j + 1], gs[j + 1]) && SameField(fs[j + 2], gs[j + 2]);
      assert SameField(fs[j + 3], gs[j + 3]);
      if m.ActivateV2? {
        assert SameField(fs[8], gs[8]);
      }
    }
  }

  /**
   With no condition on widths: two such authorizations share a payload exactly when they are
   the same operation of the same version, agree on every checked field, and their unchecked
   bytes concatenate to the same string.
   */
  lemma UnmeasuredExactly(m: Message, n: Message)
    requires Unmeasured(m) && Unmeasured(n) && Build(m).Some? && Build(n).Some?
    ensures Build(m) == Build(n) <==> Checked(m) == Checked(n) && Block(m) == Block(n)
  {
    hide Preimage, Parts, Domain, TagOf, Concat, Span, Block, BlockStart, BlockEnd, SameField, Checked, Sized, Accepted;
    HeaderSplit(m, n);
    OneTag(m);
    OneTag(n);
    AppendInjective(TagOf(m), Concat(Parts(m)), TagOf(n), Concat(Parts(n)));
    SameCheckedSameKind(m, n);
    if SameKind(m, n) {
      KindTypes(m, n);
      if Checked(m) == Checked(n) {
        CheckedToFields(m, n);
      }
      if SameOutside(m, n) {
        FieldsToChecked(m, n);
      }
      BlockIsSpan(m);
      BlockIsSpan(n);
      forall h | 0 <= h < |Parts(m)| && !(BlockStart(m) <= h < BlockEnd(m))
        ensures Sized(Parts(m)[h]) && Sized(Parts(n)[h])
      {
        OnlyBlockLoose(m, h);
        OnlyBlockLoose(n, h);
      }
      UnmeasuredBlock(Parts(m), Parts(n), BlockStart(m), BlockEnd(m));
    }
  }

  lemma OneTag(m: Message)
    requires Unmeasured(m)
    ensures |TagOf(m)| == 1
  {
  }

  lemma SameCheckedSameKind(m: Message, n: Message)
    requires Unmeasured(m) && Unmeasured(n)
    ensures Checked(m) == Checked(n) ==> SameKind(m, n)
  {
  }

  /** So equal payloads are equal authority updates once the first coordinates are equally long. */
  lemma EqualWidthsEqualUpdates(m: Message, n: Message)
    requires (m.UpdateAuthorityV2? || m.UpdateAuthorityV3?) && Unmeasured(n)
    requires Build(m).Some? && Build(m) == Build(n)
    ensures n.UpdateAuthorityV2? || n.UpdateAuthorityV3?
    ensures m == n <==> |m.x| == |n.x|
  {
    hide Build;
    UnmeasuredExactly(m, n);
    if |m.x| == |n.x| {
      AppendInjective(m.x, m.y, n.x, n.y);
    }
  }

  /** And they do collide otherwise: an update with two 32-byte coordinates and one cut elsewhere. */
  lemma UncheckedCoordinatesSlide(chainId: int, account: Bytes, nonce: int, deadline: int, b: byte)
    requires Fits(chainId, 32) && |account| == 20 && Fits(nonce, 8) && Fits(deadline, 8)
    ensures var m := UpdateAuthorityV3(chainId, account, nonce, Zeros(32) + [b], Zeros(31), deadline);
            var n := UpdateAuthorityV3(chainId, account, nonce, Zeros(32), [b] + Zeros(31), deadline);
            m != n && Build(m).Some? && Build(m) == Build(n)
  {
    hide BE, Pow256, Preimage;
    var m := UpdateAuthorityV3(chainId, account, nonce, Zeros(32) + [b], Zeros(31), deadline);
    var n := UpdateAuthorityV3(chainId, account, nonce, Zeros(32), [b] + Zeros(31), deadline);
    assert |m.x| != |n.x|;
    Assoc(Zeros(32), [b], Zeros(31));
    UnmeasuredExactly(m, n);
  }

  // ---- Single against batch, at all widths ----

  /** Single calls that share domain and tag with a batch form. */
  predicate Single(m: Message) {
    m.PermExec? || m.Exec7579? || m.Exec7579V4?
  }

  predicate Batch(m: Message) {
    m.BatchExec? || m.BatchPermExec?
  }

  lemma FirstFields(m: Message, n: Message)
    requires Single(m) && Batch(n)
    ensures |Parts(m)| > 0 && |Parts(n)| > 0
    ensures Concat(Parts(m)) == BE(m.chainId, 32) + Concat(Parts(m), 1)
    ensures Concat(Parts(n)) == ModeBatch() + Concat(Parts(n), 1)
    ensures |TagOf(m)| == |TagOf(n)| == 1
  {
    hide BE, Zeros;
  }

  /** A single call never shares a payload with a batch while its chain id does not spell the batch mode. */
  lemma SingleNeverBatch(m: Message, n: Message)
    requires Single(m) && Batch(n) && Build(m).Some? && BE(m.chainId, 32) != ModeBatch()
    ensures Build(m) != Build(n)
  {
    hide Preimage, Parts, Domain, TagOf, Concat, BE, ModeBatch, AllAccepted;
    FirstFields(m, n);
    HeaderSplit(m, n);
    AppendInjective(TagOf(m), Concat(Parts(m)), TagOf(n), Concat(Parts(n)));
    ModeWidth();
    AppendInjective(BE(m.chainId, 32), Concat(Parts(m), 1), ModeBatch(), Concat(Parts(n), 1));
  }

  lemma ModeWidth()
    ensures |ModeBatch()| == 32
  {
  }

  lemma {:induction false} PowerBytes(k: nat)
    ensures BE(Pow256(k), k + 1) == [1] + Zeros(k)
  {
    if k == 0 {
      assert BE(1, 1) == BE(0, 0) + [1];
    } else {
      PowerBytes(k - 1);
      assert Pow256(k) / 256 == Pow256(k - 1) && Pow256(k) % 256 == 0;
      assert BE(Pow256(k), k + 1) == BE(Pow256(k - 1), k) + [0];
      assert Zeros(k) == Zeros(k - 1) + [0];
    }
  }

  /** The one chain id that spells the batch mode is 2^248. */
  lemma ModeIsChainId(c: int)
    requires Fits(c, 32)
    ensures BE(c, 32) == ModeBatch() <==> c == Pow256(31)
  {
    hide BE, Pow256, Value;
    PowerBytes(31);
    if BE(c, 32) == ModeBatch() {
      Pow256Grows(31);
      BERoundTrip(c, 32);
      BERoundTrip(Pow256(31), 32);
    }
  }

  lemma Pow256Grows(k: nat)
    ensures Pow256(k) < Pow256(k + 1)
  {
  }

  lemma {:induction false} ZeroFields(fs: seq<Field>, i: nat)
    requires i <= |fs| && forall k :: i <= k < |fs| ==> Encode(fs[k]) == Zeros(|Encode(fs[k])|)
    ensures Concat(fs, i) == Zeros(|Concat(fs, i)|)
    decreases |fs| - i
  {
    hide Encode;
    if i < |fs| {
      ZeroFields(fs, i + 1);
    }
  }

  lemma ZeroWord(w: nat)
    ensures BE(0, w) == Zeros(w)
  {
    BEWiden(0, 0, w);
    assert Zeros(w) + BE(0, 0) == Zeros(w);
  }

  /** The zero call on chain 2^248 with a 12-byte data hash, and the zero batch on chain 0. */
  function ZeroSingle(): Message {
    Exec7579V4(Pow256(31), Zeros(20), 0, Zeros(20), 0, Zeros(12), 0, 0, 0)
  }

  function ZeroBatch(): Message {
    BatchExec(0, Zeros(20), 0, Zeros(32), 0, 0, 0)
  }

  lemma ZeroSingleBytes()
    ensures Concat(Parts(ZeroSingle()), 1) == Zeros(134) && AllAccepted(Parts(ZeroSingle()))
  {
    hide BE, Pow256;
    Pow256Grows(31);
    ZeroWord(32);
    ZeroWord(8);
    ZeroWord(2);
    var fs := Parts(ZeroSingle());
    ZeroFields(fs, 1);
    assert |Concat(fs, 6)| == 42 by {
      assert |Concat(fs, 8)| == 32 + |Concat(fs, 9)|;
    }
    assert |Concat(fs, 4)| == 32 + (12 + |Concat(fs, 6)|);
    assert |Concat(fs, 2)| == 8 + (20 + |Concat(fs, 4)|);
  }

  lemma ZeroBatchBytes()
    ensures Concat(Parts(ZeroBatch()), 1) == Zeros(134) && AllAccepted(Parts(ZeroBatch()))
  {
    hide BE, Pow256;
    ZeroWord(32);
    ZeroWord(8);
    ZeroWord(2);
    ModeWidth();
    var fs := Parts(ZeroBatch());
    ZeroFields(fs, 1);
    assert |Concat(fs, 5)| == 42 by {
      assert |Concat(fs, 7)| == 32 + |Concat(fs, 8)|;
    }
    assert |Concat(fs, 3)| == 8 + (32 + |Concat(fs, 5)|);
  }

  predicate Collide(m: Message, n: Message) {
    Single(m) && Batch(n) && Build(m).Some? && Build(m) == Build(n)
  }

  lemma ZeroesCollide()
    ensures Collide(ZeroSingle(), ZeroBatch())
  {
    hide Parts, Concat, BE, Pow256, ModeBatch, Zeros, AllAccepted, DomainOf;
    ZeroSingleBytes();
    ZeroBatchBytes();
    FirstFields(ZeroSingle(), ZeroBatch());
    Pow256Grows(31);
    ModeIsChainId(Pow256(31));
  }

  /** Without any condition on widths, single and batch payloads meet on exactly one chain id. */
  lemma CollidingChain(c: int)
    ensures (exists m, n :: Collide(m, n) && m.chainId == c) <==> c == Pow256(31)
  {
    hide Build, BE, Pow256, ModeBatch;
    ZeroesCollide();
    assert ZeroSingle().chainId == Pow256(31);
    if m, n :| Collide(m, n) && m.chainId == c {
      if BE(c, 32) != ModeBatch() {
        SingleNeverBatch(m, n);
      }
      ChainFits(m);
      ModeIsChainId(c);
    }
  }

  lemma ChainFits(m: Message)
    requires Single(m) && Build(m).Some?
    ensures Fits(m.chainId, 32)
  {
    hide Pow256;
    assert Accepted(Parts(m)[0]);
  }
}
