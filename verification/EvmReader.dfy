/**
 A reader of EVM authorization preimages that knows only their layout: the domain text, the
 length, the op-tag, and the order of the packed fields the contracts hash. It recovers every
 message of `packages/core/src/evm.ts` and `packages/evm/src/adapter.ts` from its preimage.
 */
module EvmReader {
  import opened Bytes
  import opened Wire
  import opened FieldReader
  import opened EvmPayloads
  import SolanaPayloads
  import SolanaReader

  const WORD: Slot := Big(32)
  const LONG: Slot := Big(8)
  const SHORT: Slot := Big(2)
  const ADDRESS: Slot := Raw(20)
  const HASH: Slot := Raw(32)

  /** Account domain (`account`) or permission domain, its version, and the bytes behind it. */
  datatype Shape = Shape(account: bool, version: int, length: nat)

  function Layout(s: Shape): seq<Slot> {
    if s.account then AccountLayout(s.version, s.length) else PermissionLayout(s.version, s.length)
  }

  function AccountLayout(version: int, length: nat): seq<Slot> {
    if version == 1 then [WORD, ADDRESS, LONG, ADDRESS, WORD, HASH, LONG, WORD, ADDRESS]
    else if length == 133 then [WORD, ADDRESS, LONG, HASH, HASH, LONG]
    else if version == 2 then
      if length == 187 then [WORD, ADDRESS, LONG, ADDRESS, WORD, HASH, LONG, WORD, SHORT]
      else [HASH, HASH, HASH, HASH, WORD, SHORT, LONG, WORD, ADDRESS]
    else if version == 3 then
      if length == 155 then [WORD, ADDRESS, LONG, ADDRESS, WORD, HASH, LONG, SHORT]
      else if length == 159 then [HASH, HASH, HASH, SHORT, LONG, WORD, ADDRESS]
      else [WORD, ADDRESS, HASH]
    else
      if length == 187 then [WORD, ADDRESS, LONG, ADDRESS, WORD, HASH, LONG, SHORT, WORD]
      else [HASH, HASH, HASH, SHORT, WORD, LONG, WORD, ADDRESS]
  }

  function PermissionLayout(version: int, length: nat): seq<Slot> {
    if length == 253 then
      [WORD, ADDRESS, HASH, HASH, LittleUnsigned(1), ADDRESS, Raw(4), ADDRESS, ADDRESS, WORD, LONG, HASH]
    else if version == 1 then [WORD, ADDRESS, HASH, LONG, ADDRESS, WORD, HASH, LONG, SHORT]
    else if length == 374 then
      [WORD, ADDRESS, HASH, HASH, HASH, LittleUnsigned(1), ADDRESS, Raw(4), ADDRESS, ADDRESS,
       WORD, WORD, WORD, WORD, LONG, LONG, LONG, LONG]
    else if length == 101 then [WORD, ADDRESS, HASH, LONG, LONG]
    else if length == 219 then [WORD, ADDRESS, HASH, LONG, ADDRESS, WORD, HASH, LONG, SHORT, WORD]
    else if length == 199 then [HASH, WORD, ADDRESS, HASH, LONG, HASH, LONG, SHORT, WORD]
    else if length == 155 then [WORD, ADDRESS, LONG, ADDRESS, WORD, HASH, LONG, SHORT]
    else if length == 187 then [WORD, ADDRESS, LONG, ADDRESS, WORD, HASH, LONG, SHORT, WORD]
    else if length == 167 then [HASH, WORD, ADDRESS, LONG, HASH, LONG, SHORT, WORD]
    else [WORD, ADDRESS, WORD, ADDRESS, HASH, LONG, LONG]
  }

  /** The two shapes without an op-tag: the first execute and the permission id. */
  predicate Untagged(s: Shape) {
    (s.account && s.version == 1) || (!s.account && s.length == 253)
  }

  /** The message of a shape; `tag` is its op-tag, and a batch carries its mode. */
  function Assemble(s: Shape, tag: int, v: seq<Datum>): Option<Message> {
    if s.account then AssembleAccount(s.version, s.length, tag, v)
    else AssemblePermission(s.version, s.length, tag, v)
  }

  function AssembleAccount(version: int, length: nat, tag: int, v: seq<Datum>): Option<Message> {
    if version == 1 then
      Some(ExecuteV1(N(v, 0), B(v, 1), N(v, 2), B(v, 3), N(v, 4), B(v, 5), N(v, 6), N(v, 7), B(v, 8)))
    else if version == 2 && length == 187 && tag == 1 then
      Some(ExecuteV2(N(v, 0), B(v, 1), N(v, 2), B(v, 3), N(v, 4), B(v, 5), N(v, 6), N(v, 7), N(v, 8)))
    else if version == 2 && length == 133 && tag == 3 then
      Some(UpdateAuthorityV2(N(v, 0), B(v, 1), N(v, 2), B(v, 3), B(v, 4), N(v, 5)))
    else if version == 2 && length == 223 && tag == 5 then
      Some(ActivateV2(B(v, 0), B(v, 1), B(v, 2), B(v, 3), N(v, 4), N(v, 5), N(v, 6), N(v, 7), B(v, 8)))
    else if version == 3 && length == 155 && tag == 1 then
      Some(ExecuteV3(N(v, 0), B(v, 1), N(v, 2), B(v, 3), N(v, 4), B(v, 5), N(v, 6), N(v, 7)))
    else if version == 3 && length == 133 && tag == 3 then
      Some(UpdateAuthorityV3(N(v, 0), B(v, 1), N(v, 2), B(v, 3), B(v, 4), N(v, 5)))
    else if version == 3 && length == 159 && tag == 5 then
      Some(ActivateV3(B(v, 0), B(v, 1), B(v, 2), N(v, 3), N(v, 4), N(v, 5), B(v, 6)))
    else if version == 3 && length == 85 && tag == 0x16 then
      Some(Sign1271(N(v, 0), B(v, 1), B(v, 2)))
    else if version == 4 && length == 187 && tag == 1 then
      Some(ExecuteV4(N(v, 0), B(v, 1), N(v, 2), B(v, 3), N(v, 4), B(v, 5), N(v, 6), N(v, 7), N(v, 8)))
    else if version == 4 && length == 191 && tag == 5 then
      Some(ActivateV4(B(v, 0), B(v, 1), B(v, 2), N(v, 3), N(v, 4), N(v, 5), N(v, 6), B(v, 7)))
    else None
  }

  /** CallType 1 and thirty-one zeros. */
  predicate IsBatchMode(bs: Bytes) {
    |bs| == 32 && bs[0] == 1 && forall i :: 1 <= i < 32 ==> bs[i] == 0
  }

  function AssemblePermission(version: int, length: nat, tag: int, v: seq<Datum>): Option<Message> {
    if length == 253 then
      Some(PermissionId(version == 1, N(v, 0), B(v, 1),
        Scope(B(v, 2), B(v, 3), N(v, 4), B(v, 5), B(v, 6), B(v, 7), B(v, 8), N(v, 9), N(v, 10)), B(v, 11)))
    else if version == 1 then
      if tag == 0x12 then
        Some(PermExecV1(N(v, 0), B(v, 1), B(v, 2), N(v, 3), B(v, 4), N(v, 5), B(v, 6), N(v, 7), N(v, 8)))
      else None
    else if length == 374 && tag == 0x10 then
      Some(Grant(N(v, 0), B(v, 1), B(v, 2),
        Scope(B(v, 3), B(v, 4), N(v, 5), B(v, 6), B(v, 7), B(v, 8), B(v, 9), N(v, 13), N(v, 15)),
        N(v, 10), N(v, 11), N(v, 12), N(v, 14), N(v, 16), N(v, 17)))
    else if length == 101 && tag == 0x11 then
      Some(Revoke(N(v, 0), B(v, 1), B(v, 2), N(v, 3), N(v, 4)))
    else if length == 219 && tag == 0x12 then
      Some(PermExec(N(v, 0), B(v, 1), B(v, 2), N(v, 3), B(v, 4), N(v, 5), B(v, 6), N(v, 7), N(v, 8), N(v, 9)))
    else if length == 199 && tag == 0x12 && IsBatchMode(B(v, 0)) then
      Some(BatchPermExec(N(v, 1), B(v, 2), B(v, 3), N(v, 4), B(v, 5), N(v, 6), N(v, 7), N(v, 8)))
    else if length == 155 && tag == 0x15 then
      Some(Exec7579(N(v, 0), B(v, 1), N(v, 2), B(v, 3), N(v, 4), B(v, 5), N(v, 6), N(v, 7)))
    else if length == 187 && tag == 0x15 then
      Some(Exec7579V4(N(v, 0), B(v, 1), N(v, 2), B(v, 3), N(v, 4), B(v, 5), N(v, 6), N(v, 7), N(v, 8)))
    else if length == 167 && tag == 0x15 && IsBatchMode(B(v, 0)) then
      Some(BatchExec(N(v, 1), B(v, 2), N(v, 3), B(v, 4), N(v, 5), N(v, 6), N(v, 7)))
    else if length == 153 then
      Some(Module(tag, N(v, 0), B(v, 1), N(v, 2), B(v, 3), B(v, 4), N(v, 5), N(v, 6)))
    else None
  }

  /** The shape, and where what follows the domain starts. */
  function ShapeAt(bs: Bytes): Option<(Shape, nat)> {
    if StartsWith(bs, "PID|EVM|SMART_ACCOUNT|v") && |bs| > 23 then
      Some((Shape(true, bs[23] as int - 48, |bs| - 24), 24))
    else if StartsWith(bs, "PID|EVM|PERMISSION|v") && |bs| > 20 then
      Some((Shape(false, bs[20] as int - 48, |bs| - 21), 21))
    else None
  }

  function Decode(bs: Bytes): Option<Message> {
    var (shape, at) :- ShapeAt(bs);
    if Untagged(shape) then
      var v :- Take(bs, at, Layout(shape));
      Assemble(shape, 0, v)
    else if at < |bs| then
      var v :- Take(bs, at + 1, Layout(shape));
      Assemble(shape, bs[at], v)
    else None
  }

  // ---- The builders against the reader ----

  function ShapeOf(m: Message): Shape {
    if Domain(m) <= 4 then Shape(true, Domain(m), BodySize(m)) else Shape(false, Domain(m) - 4, BodySize(m))
  }

  function TagNumber(m: Message): int {
    if TagOf(m) == [] then 0 else TagOf(m)[0]
  }

  // One pair of lemmas per group of builders: the layouts, then the data.

  lemma EarlyLayout(m: Message)
    requires Domain(m) <= 2
    ensures Describes(Layout(ShapeOf(m)), Parts(m)) && (Untagged(ShapeOf(m)) <==> TagOf(m) == [])
  {
  }

  lemma EarlyData(m: Message)
    requires Domain(m) <= 2
    ensures Assemble(ShapeOf(m), TagNumber(m), Data(Parts(m))) == Some(m)
  {
  }

  lemma LateLayout(m: Message)
    requires 3 <= Domain(m) <= 4
    ensures Describes(Layout(ShapeOf(m)), Parts(m)) && (Untagged(ShapeOf(m)) <==> TagOf(m) == [])
  {
  }

  lemma LateData(m: Message)
    requires 3 <= Domain(m) <= 4
    ensures Assemble(ShapeOf(m), TagNumber(m), Data(Parts(m))) == Some(m)
  {
  }

  lemma IdentifyingLayout(m: Message)
    requires m.PermissionId?
    ensures Describes(Layout(ShapeOf(m)), Parts(m)) && (Untagged(ShapeOf(m)) <==> TagOf(m) == [])
  {
  }

  lemma IdentifyingScope(m: Message)
    requires m.PermissionId?
    ensures var v, s := Data(Parts(m)), m.scope;
            && B(v, 2) == s.sessionX && B(v, 3) == s.sessionY && N(v, 4) == s.kind && B(v, 5) == s.target
            && B(v, 6) == s.selector && B(v, 7) == s.token && B(v, 8) == s.to
  {
  }

  lemma IdentifyingRest(m: Message)
    requires m.PermissionId?
    ensures var v := Data(Parts(m));
            && N(v, 0) == m.chainId && B(v, 1) == m.account && N(v, 9) == m.scope.nftId
            && N(v, 10) == m.scope.validUntil && B(v, 11) == m.salt
  {
  }

  lemma IdentifyingData(m: Message)
    requires m.PermissionId?
    ensures Assemble(ShapeOf(m), TagNumber(m), Data(Parts(m))) == Some(m)
  {
    hide Data, Parts, B, N;
    IdentifyingScope(m);
    IdentifyingRest(m);
  }

  lemma GrantingLayout(m: Message)
    requires m.Grant?
    ensures Describes(Layout(ShapeOf(m)), Parts(m)) && (Untagged(ShapeOf(m)) <==> TagOf(m) == [])
  {
  }

  lemma GrantBounds(m: Message)
    requires m.Grant?
    ensures var v := Data(Parts(m));
            && N(v, 0) == m.chainId && B(v, 1) == m.account && B(v, 2) == m.permissionId
            && N(v, 10) == m.perTxCap && N(v, 11) == m.totalLimit && N(v, 12) == m.feeLimit
            && N(v, 14) == m.validAfter && N(v, 16) == m.nonce && N(v, 17) == m.deadline
  {
  }

  lemma GrantSession(m: Message)
    requires m.Grant?
    ensures var v, s := Data(Parts(m)), m.scope;
            && B(v, 3) == s.sessionX && B(v, 4) == s.sessionY && N(v, 5) == s.kind && B(v, 6) == s.target
            && N(v, 13) == s.nftId && N(v, 15) == s.validUntil
  {
  }

  lemma GrantTargets(m: Message)
    requires m.Grant?
    ensures var v, s := Data(Parts(m)), m.scope;
            B(v, 7) == s.selector && B(v, 8) == s.token && B(v, 9) == s.to
  {
  }

  lemma GrantingData(m: Message)
    requires m.Grant?
    ensures Assemble(ShapeOf(m), TagNumber(m), Data(Parts(m))) == Some(m)
  {
    hide Data, Parts, B, N;
    GrantBounds(m);
    GrantSession(m);
    GrantTargets(m);
  }

  lemma ManagingLayout(m: Message)
    requires m.Revoke? || m.PermExecV1? || m.Module?
    ensures Describes(Layout(ShapeOf(m)), Parts(m)) && (Untagged(ShapeOf(m)) <==> TagOf(m) == [])
  {
  }

  lemma ManagingData(m: Message)
    requires (m.Revoke? || m.PermExecV1? || m.Module?) && ByteTags(m)
    ensures Assemble(ShapeOf(m), TagNumber(m), Data(Parts(m))) == Some(m)
  {
  }

  lemma CallingLayout(m: Message)
    requires m.PermExec? || m.Exec7579? || m.Exec7579V4?
    ensures Describes(Layout(ShapeOf(m)), Parts(m)) && (Untagged(ShapeOf(m)) <==> TagOf(m) == [])
  {
  }

  lemma CallingData(m: Message)
    requires m.PermExec? || m.Exec7579? || m.Exec7579V4?
    ensures Assemble(ShapeOf(m), TagNumber(m), Data(Parts(m))) == Some(m)
  {
  }

  lemma BatchingLayout(m: Message)
    requires Batch(m)
    ensures Describes(Layout(ShapeOf(m)), Parts(m)) && (Untagged(ShapeOf(m)) <==> TagOf(m) == [])
  {
  }

  lemma BatchingData(m: Message)
    requires Batch(m)
    ensures Assemble(ShapeOf(m), TagNumber(m), Data(Parts(m))) == Some(m)
  {
    ModeIsBatch();
  }

  lemma ModeIsBatch()
    ensures IsBatchMode(ModeBatch())
  {
  }

  lemma Groups(m: Message)
    ensures || Domain(m) <= 4
            || m.PermissionId? || m.Grant?
            || m.Revoke? || m.PermExecV1? || m.Module?
            || m.PermExec? || m.Exec7579? || m.Exec7579V4?
            || Batch(m)
  {
  }

  /** The reader's layout is the builder's list, and its data are the message's. */
  lemma ReaderAgrees(m: Message)
    requires ByteTags(m)
    ensures Describes(Layout(ShapeOf(m)), Parts(m)) && (Untagged(ShapeOf(m)) <==> TagOf(m) == [])
    ensures Assemble(ShapeOf(m), TagNumber(m), Data(Parts(m))) == Some(m)
  {
    hide Domain, TagOf, Parts, Layout, Describes, Assemble, Data, ShapeOf, TagNumber, Untagged, ByteTags, Batch;
    Groups(m);
    if Domain(m) <= 2 {
      EarlyLayout(m);
      EarlyData(m);
    } else if Domain(m) <= 4 {
      LateLayout(m);
      LateData(m);
    } else if m.PermissionId? {
      IdentifyingLayout(m);
      IdentifyingData(m);
    } else if m.Grant? {
      GrantingLayout(m);
      GrantingData(m);
    } else if m.Revoke? || m.PermExecV1? || m.Module? {
      ManagingLayout(m);
      ManagingData(m);
    } else if m.PermExec? || m.Exec7579? || m.Exec7579V4? {
      CallingLayout(m);
      CallingData(m);
    } else {
      BatchingLayout(m);
      BatchingData(m);
    }
  }

  lemma AccountRead(d: nat, rest: Bytes)
    requires 1 <= d <= 4
    ensures var bs := DomainOf(d) + rest;
            |DomainOf(d)| == 24 && StartsWith(bs, "PID|EVM|SMART_ACCOUNT|v") && bs[23] == 48 + d
  {
    SolanaReader.TextRead("PID|EVM|SMART_ACCOUNT|v", [48 + d] + rest);
    assert DomainOf(d) + rest == SolanaPayloads.Ascii("PID|EVM|SMART_ACCOUNT|v") + ([48 + d] + rest);
  }

  lemma PermissionRead(d: nat, rest: Bytes)
    requires 5 <= d <= 6
    ensures var bs := DomainOf(d) + rest;
            && |DomainOf(d)| == 21 && bs[20] == 44 + d
            && StartsWith(bs, "PID|EVM|PERMISSION|v") && !StartsWith(bs, "PID|EVM|SMART_ACCOUNT|v")
  {
    SolanaReader.TextRead("PID|EVM|PERMISSION|v", [44 + d] + rest);
    assert DomainOf(d) + rest == SolanaPayloads.Ascii("PID|EVM|PERMISSION|v") + ([44 + d] + rest);
    assert "PID|EVM|PERMISSION|v"[8] == 'P' && "PID|EVM|SMART_ACCOUNT|v"[8] == 'S';
  }

  lemma BodyLength(m: Message)
    requires AllAccepted(Parts(m)) && AllSized(Parts(m))
    ensures |TagOf(m) + Concat(Parts(m))| == BodySize(m)
  {
    hide Domain, TagOf, Parts, Concat, Size, BodySize, AllAccepted, Sized;
    ConcatSize(Parts(m), 0);
    if Domain(m) <= 4 {
      AccountBodySizes(m);
    } else {
      PermissionBodySizes(m);
    }
  }

  lemma HeaderRead(m: Message)
    requires AllAccepted(Parts(m)) && AllSized(Parts(m))
    ensures ShapeAt(Preimage(m)) == Some((ShapeOf(m), |DomainOf(Domain(m))|))
  {
    hide DomainOf, Domain, TagOf, Parts, Concat, BodySize, StartsWith, AllAccepted, AllSized;
    var rest := TagOf(m) + Concat(Parts(m));
    BodyLength(m);
    if Domain(m) <= 4 {
      AccountRead(Domain(m), rest);
    } else {
      PermissionRead(Domain(m), rest);
    }
  }

  lemma TagWidth(m: Message)
    ensures |TagOf(m)| <= 1
  {
  }

  /** Every sized message with one-byte kinds and tags is read back from its preimage, field by field. */
  lemma PreimageReads(m: Message)
    requires AllAccepted(Parts(m)) && AllSized(Parts(m)) && ByteTags(m)
    ensures Decode(Preimage(m)) == Some(m)
  {
    hide DomainOf, Domain, TagOf, Parts, Concat, Layout, Assemble, Take, ShapeAt, ShapeOf, Untagged;
    hide AllAccepted, AllSized, AllInRange, Describes, Data;
    HeaderRead(m);
    ReaderAgrees(m);
    TagWidth(m);
    var domain, tag, body := DomainOf(Domain(m)), TagOf(m), Concat(Parts(m));
    Assoc(domain, tag, body);
    TakesBody(domain + tag, Layout(ShapeOf(m)), Parts(m));
    if tag == [] {
      assert domain + tag == domain;
    } else {
      assert Preimage(m)[|domain|] == tag[0];
    }
  }
}
