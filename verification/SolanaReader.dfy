/**
 A reader of Solana authorization preimages that knows only their layout: the domain text, the
 op-tag, and the order in which the program lists the parts it hashes
 (under `contracts/svm/smart-account/src/instructions`). It recovers every message from its
 preimage, so each field of `packages/core/src/hash.ts` stands where the program looks for it.
 */
module SolanaReader {
  import opened Bytes
  import opened Wire
  import opened FieldReader
  import opened SolanaPayloads

  const U64_SLOT: Slot := LittleUnsigned(8)
  const I64_SLOT: Slot := LittleSigned(8)
  const U16_SLOT: Slot := LittleUnsigned(2)
  const KEY_SLOT: Slot := Raw(32)
  const AUTHORITY_SLOT: Slot := Raw(33)

  /** The shapes of a preimage. */
  datatype Shape =
    | Untagged(length: nat)
    | Tagged(version: int, tag: int)
    | Session(tag: int)

  /** The parts of each shape, in order. */
  function Layout(s: Shape): seq<Slot> {
    match s
    case Untagged(n) =>
      if n == 96 then [U64_SLOT, U64_SLOT, KEY_SLOT, I64_SLOT, U64_SLOT, KEY_SLOT]
      else if n == 128 then [U64_SLOT, U64_SLOT, KEY_SLOT, I64_SLOT, U64_SLOT, KEY_SLOT, KEY_SLOT]
      else if n == 65 then [KEY_SLOT, AUTHORITY_SLOT]
      else [KEY_SLOT, AUTHORITY_SLOT, U64_SLOT, I64_SLOT, KEY_SLOT]
    case Tagged(v, t) =>
      if v == 2 then LayoutV2(t) else if v == 3 then LayoutV3(t) else if v == 4 then LayoutV4(t) else LayoutV5(t)
    case Session(t) =>
      if t == 7 then
        [KEY_SLOT, U64_SLOT, KEY_SLOT, KEY_SLOT, I64_SLOT, LittleUnsigned(1), KEY_SLOT, U64_SLOT, I64_SLOT]
      else if t == 9 then [KEY_SLOT, KEY_SLOT, U64_SLOT, I64_SLOT]
      else [KEY_SLOT, KEY_SLOT, KEY_SLOT, U64_SLOT, I64_SLOT]
  }

  function LayoutV2(t: int): seq<Slot> {
    if t == 0 then [KEY_SLOT, AUTHORITY_SLOT]
    else if t == 1 then [KEY_SLOT, U64_SLOT, U64_SLOT, KEY_SLOT, I64_SLOT, U64_SLOT, U16_SLOT]
    else if t == 2 then [KEY_SLOT, U64_SLOT, U64_SLOT, KEY_SLOT, I64_SLOT, U64_SLOT, U16_SLOT, KEY_SLOT]
    else if t == 3 then [KEY_SLOT, U64_SLOT, AUTHORITY_SLOT, I64_SLOT]
    else if t == 4 then [KEY_SLOT, U64_SLOT, KEY_SLOT, I64_SLOT]
    else [KEY_SLOT, AUTHORITY_SLOT, U64_SLOT, U16_SLOT, I64_SLOT]
  }

  function LayoutV3(t: int): seq<Slot> {
    if t == 0 then [KEY_SLOT, AUTHORITY_SLOT]
    else if t == 1 then [KEY_SLOT, U64_SLOT, U64_SLOT, KEY_SLOT, I64_SLOT, U16_SLOT]
    else if t == 2 then [KEY_SLOT, U64_SLOT, U64_SLOT, KEY_SLOT, I64_SLOT, U16_SLOT, KEY_SLOT]
    else if t == 3 then [KEY_SLOT, U64_SLOT, AUTHORITY_SLOT, I64_SLOT]
    else if t == 4 || t == 33 then [KEY_SLOT, U64_SLOT, KEY_SLOT, I64_SLOT]
    else if t == 5 then [KEY_SLOT, AUTHORITY_SLOT, U16_SLOT, I64_SLOT]
    else if t == 34 then [KEY_SLOT, U64_SLOT, I64_SLOT]
    else [KEY_SLOT, U64_SLOT, I64_SLOT, U16_SLOT, KEY_SLOT]
  }

  function LayoutV4(t: int): seq<Slot> {
    if t == 11 then [KEY_SLOT, U64_SLOT, U64_SLOT, KEY_SLOT, I64_SLOT, U16_SLOT, U64_SLOT]
    else if t == 12 then [KEY_SLOT, U64_SLOT, U64_SLOT, KEY_SLOT, I64_SLOT, U16_SLOT, U64_SLOT, KEY_SLOT]
    else if t == 13 then [KEY_SLOT, U64_SLOT, I64_SLOT, U16_SLOT, U64_SLOT, KEY_SLOT]
    else [KEY_SLOT, AUTHORITY_SLOT, U16_SLOT, U64_SLOT, I64_SLOT]
  }

  function LayoutV5(t: int): seq<Slot> {
    if t == 20 then [KEY_SLOT, KEY_SLOT, KEY_SLOT, U64_SLOT, AUTHORITY_SLOT, I64_SLOT]
    else [KEY_SLOT, KEY_SLOT, KEY_SLOT, U64_SLOT, I64_SLOT, U16_SLOT, KEY_SLOT]
  }

  /** The message whose parts were read. */
  function Assemble(s: Shape, v: seq<Datum>): Option<Message> {
    match s
    case Untagged(length) =>
      if length == 96 then Some(WithdrawV1(N(v, 0), N(v, 1), B(v, 2), N(v, 3), N(v, 4), B(v, 5)))
      else if length == 128 then Some(WithdrawTokenV1(N(v, 0), N(v, 1), B(v, 2), N(v, 3), N(v, 4), B(v, 5), B(v, 6)))
      else if length == 65 then Some(InitializeV1(B(v, 0), B(v, 1)))
      else if length == 113 then Some(ActivateV1(B(v, 0), B(v, 1), N(v, 2), N(v, 3), B(v, 4)))
      else None
    case Tagged(version, t) =>
      if version == 2 then AssembleV2(t, v)
      else if version == 3 then AssembleV3(t, v)
      else if version == 4 then AssembleV4(t, v)
      else if version == 5 then AssembleV5(t, v)
      else None
    case Session(t) =>
      if t == 7 then
        Some(RegisterSession(
          B(v, 0), N(v, 1), B(v, 2), B(v, 3), N(v, 4), N(v, 5) == 1, B(v, 6), N(v, 7), N(v, 8)))
      else if t == 9 then Some(RevokeSession(B(v, 0), B(v, 1), N(v, 2), N(v, 3)))
      else if t == 10 then Some(CloseSession(B(v, 0), B(v, 1), B(v, 2), N(v, 3), N(v, 4)))
      else None
  }

  function AssembleV2(t: int, v: seq<Datum>): Option<Message> {
    if t == 0 then Some(InitializeV2(B(v, 0), B(v, 1)))
    else if t == 1 then Some(WithdrawV2(B(v, 0), N(v, 1), N(v, 2), B(v, 3), N(v, 4), N(v, 5), N(v, 6)))
    else if t == 2 then Some(WithdrawTokenV2(B(v, 0), N(v, 1), N(v, 2), B(v, 3), N(v, 4), N(v, 5), N(v, 6), B(v, 7)))
    else if t == 3 then Some(UpdateAuthorityV2(B(v, 0), N(v, 1), B(v, 2), N(v, 3)))
    else if t == 4 then Some(CloseV2(B(v, 0), N(v, 1), B(v, 2), N(v, 3)))
    else if t == 5 then Some(ActivateV2(B(v, 0), B(v, 1), N(v, 2), N(v, 3), N(v, 4)))
    else None
  }

  function AssembleV3(t: int, v: seq<Datum>): Option<Message> {
    if t == 0 then Some(InitializeV3(B(v, 0), B(v, 1)))
    else if t == 1 then Some(WithdrawV3(B(v, 0), N(v, 1), N(v, 2), B(v, 3), N(v, 4), N(v, 5)))
    else if t == 2 then Some(WithdrawTokenV3(B(v, 0), N(v, 1), N(v, 2), B(v, 3), N(v, 4), N(v, 5), B(v, 6)))
    else if t == 3 then Some(UpdateAuthorityV3(B(v, 0), N(v, 1), B(v, 2), N(v, 3)))
    else if t == 4 then Some(CloseV3(B(v, 0), N(v, 1), B(v, 2), N(v, 3)))
    else if t == 5 then Some(ActivateV3(B(v, 0), B(v, 1), N(v, 2), N(v, 3)))
    else if t == 6 then Some(ExecuteV3(B(v, 0), N(v, 1), N(v, 2), N(v, 3), B(v, 4)))
    else if t == 33 then Some(CloseRequest(B(v, 0), N(v, 1), B(v, 2), N(v, 3)))
    else if t == 34 then Some(CloseCancel(B(v, 0), N(v, 1), N(v, 2)))
    else None
  }

  function AssembleV4(t: int, v: seq<Datum>): Option<Message> {
    if t == 11 then Some(WithdrawV4(B(v, 0), N(v, 1), N(v, 2), B(v, 3), N(v, 4), N(v, 5), N(v, 6)))
    else if t == 12 then Some(WithdrawTokenV4(B(v, 0), N(v, 1), N(v, 2), B(v, 3), N(v, 4), N(v, 5), N(v, 6), B(v, 7)))
    else if t == 13 then Some(ExecuteV4(B(v, 0), N(v, 1), N(v, 2), N(v, 3), N(v, 4), B(v, 5)))
    else if t == 14 then Some(ActivateV4(B(v, 0), B(v, 1), N(v, 2), N(v, 3), N(v, 4)))
    else None
  }

  function AssembleV5(t: int, v: seq<Datum>): Option<Message> {
    if t == 20 then Some(UpdateAuthorityV5(B(v, 0), B(v, 1), B(v, 2), N(v, 3), B(v, 4), N(v, 5)))
    else if t == 21 then Some(ExecuteV5(B(v, 0), B(v, 1), B(v, 2), N(v, 3), N(v, 4), N(v, 5), B(v, 6)))
    else None
  }

  /** The shape, and where its parts start. */
  function ShapeAt(bs: Bytes): Option<(Shape, nat)> {
    if StartsWith(bs, "PID|SOLANA|SESSION|v1") then
      if |bs| > 21 then Some((Session(bs[21]), 22)) else None
    else if StartsWith(bs, "PID|SOLANA|SMART_ACCOUNT|v") && |bs| > 26 then
      if bs[26] as char == '1' then Some((Untagged(|bs| - 27), 27))
      else if |bs| > 27 then Some((Tagged(bs[26] as int - 48, bs[27]), 28))
      else None
    else None
  }

  function Decode(bs: Bytes): Option<Message> {
    var (shape, at) :- ShapeAt(bs);
    var v :- Take(bs, at, Layout(shape));
    Assemble(shape, v)
  }

  // ---- The builders against the reader ----

  function ShapeOf(m: Message): Shape {
    if Version(m) == 0 then Session(Tag(m))
    else if Version(m) == 1 then Untagged(Size(Parts(m)))
    else Tagged(Version(m), Tag(m))
  }

  lemma LayoutV1Agrees(m: Message)
    requires Version(m) == 1
    ensures Describes(Layout(Untagged(Size(Parts(m)))), Parts(m))
  {
    hide Size;
    V1Lengths(m);
  }

  lemma DataV1Agrees(m: Message)
    requires Version(m) == 1
    ensures Assemble(Untagged(Size(Parts(m))), Data(Parts(m))) == Some(m)
  {
    hide Size;
    V1Lengths(m);
  }

  lemma LayoutV2Agrees(m: Message)
    requires Version(m) == 2
    ensures Describes(Layout(Tagged(2, Tag(m))), Parts(m))
  {
  }

  lemma DataV2Agrees(m: Message)
    requires Version(m) == 2
    ensures Assemble(Tagged(2, Tag(m)), Data(Parts(m))) == Some(m)
  {
  }

  lemma LayoutV3Agrees(m: Message)
    requires Version(m) == 3
    ensures Describes(Layout(Tagged(3, Tag(m))), Parts(m))
  {
  }

  lemma DataV3Agrees(m: Message)
    requires Version(m) == 3
    ensures Assemble(Tagged(3, Tag(m)), Data(Parts(m))) == Some(m)
  {
  }

  lemma LayoutV4Agrees(m: Message)
    requires Version(m) == 4
    ensures Describes(Layout(Tagged(4, Tag(m))), Parts(m))
  {
  }

  lemma DataV4Agrees(m: Message)
    requires Version(m) == 4
    ensures Assemble(Tagged(4, Tag(m)), Data(Parts(m))) == Some(m)
  {
  }

  lemma LayoutV5Agrees(m: Message)
    requires Version(m) == 5
    ensures Describes(Layout(Tagged(5, Tag(m))), Parts(m))
  {
  }

  lemma DataV5Agrees(m: Message)
    requires Version(m) == 5
    ensures Assemble(Tagged(5, Tag(m)), Data(Parts(m))) == Some(m)
  {
  }

  lemma LayoutSessionAgrees(m: Message)
    requires Version(m) == 0
    ensures Describes(Layout(Session(Tag(m))), Parts(m))
  {
  }

  lemma DataSessionAgrees(m: Message)
    requires Version(m) == 0
    ensures Assemble(Session(Tag(m)), Data(Parts(m))) == Some(m)
  {
  }

  /** The reader's layout is the builder's list, and its data are the message's. */
  lemma ReaderAgrees(m: Message)
    ensures Describes(Layout(ShapeOf(m)), Parts(m))
    ensures Assemble(ShapeOf(m), Data(Parts(m))) == Some(m)
  {
    hide Version, Tag, Parts, Size, Layout, Describes, Assemble, Data;
    if Version(m) == 0 {
      LayoutSessionAgrees(m);
      DataSessionAgrees(m);
    } else if Version(m) == 1 {
      LayoutV1Agrees(m);
      DataV1Agrees(m);
    } else if Version(m) == 2 {
      LayoutV2Agrees(m);
      DataV2Agrees(m);
    } else if Version(m) == 3 {
      LayoutV3Agrees(m);
      DataV3Agrees(m);
    } else if Version(m) == 4 {
      LayoutV4Agrees(m);
      DataV4Agrees(m);
    } else {
      LayoutV5Agrees(m);
      DataV5Agrees(m);
    }
  }

  lemma TextRead(text: string, rest: Bytes)
    requires forall i :: 0 <= i < |text| ==> text[i] as int < 256
    ensures StartsWith(Ascii(text) + rest, text)
  {
    var bs := Ascii(text) + rest;
    forall i | 0 <= i < |text|
      ensures bs[i] as char == text[i]
    {
      assert bs[i] == Ascii(text)[i];
    }
  }

  lemma SessionRead(rest: Bytes)
    ensures |DomainOf(0)| == 21 && StartsWith(DomainOf(0) + rest, "PID|SOLANA|SESSION|v1")
  {
    TextRead("PID|SOLANA|SESSION|v1", rest);
  }

  lemma AccountRead(version: nat, rest: Bytes)
    requires 1 <= version <= 5
    ensures var bs := DomainOf(version) + rest;
            && |DomainOf(version)| == 27 && bs[26] == 48 + version
            && StartsWith(bs, "PID|SOLANA|SMART_ACCOUNT|v") && !StartsWith(bs, "PID|SOLANA|SESSION|v1")
  {
    TextRead("PID|SOLANA|SMART_ACCOUNT|v", [48 + version] + rest);
    assert DomainOf(version) + rest == Ascii("PID|SOLANA|SMART_ACCOUNT|v") + ([48 + version] + rest);
    assert "PID|SOLANA|SMART_ACCOUNT|v"[12] == 'M' && "PID|SOLANA|SESSION|v1"[12] == 'E';
  }

  lemma HeaderRead(m: Message)
    requires AllAccepted(Parts(m)) && AllSized(Parts(m))
    ensures ShapeAt(Preimage(m)) == Some((ShapeOf(m), |DomainOf(Version(m)) + TagOf(m)|))
  {
    hide DomainOf, Version, Tag, Parts, Concat, Size, StartsWith, AllAccepted, Sized;
    var bs, rest := Preimage(m), TagOf(m) + Concat(Parts(m));
    if Version(m) == 0 {
      SessionRead(rest);
      assert bs[21] == rest[0];
    } else {
      AccountRead(Version(m), rest);
      if Version(m) == 1 {
        ConcatSize(Parts(m), 0);
      } else {
        assert bs[27] == rest[0];
      }
    }
  }

  /** Every sized message with in-range integers is read back from its preimage, field by field. */
  lemma PreimageReads(m: Message)
    requires AllAccepted(Parts(m)) && AllSized(Parts(m)) && AllInRange(Parts(m))
    ensures Decode(Preimage(m)) == Some(m)
  {
    hide DomainOf, Version, Tag, TagOf, Parts, Concat, Layout, Assemble, Take, ShapeAt, ShapeOf;
    hide AllAccepted, AllSized, AllInRange, Describes, Data;
    HeaderRead(m);
    ReaderAgrees(m);
    var header := DomainOf(Version(m)) + TagOf(m);
    Assoc(DomainOf(Version(m)), TagOf(m), Concat(Parts(m)));
    TakesBody(header, Layout(ShapeOf(m)), Parts(m));
  }
}
