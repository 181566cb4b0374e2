/**
 Every Solana authorization payload of `packages/core/src/hash.ts`: V1 to V5, the
 close-grace requests and the session grants. A message is what the passkey signs;
 its preimage is `domain ‖ op-tag ‖ parts`, hashed with SHA-256 (not modelled here).
 */
module SolanaPayloads {
  import opened Bytes
  import opened Wire

  datatype Message =
    | WithdrawV1(nonce: int, amount: int, destination: Bytes, expiry: int, fee: int, treasury: Bytes)
    | WithdrawTokenV1(
        nonce: int, amount: int, destination: Bytes, expiry: int, fee: int, treasury: Bytes, source: Bytes)
    | InitializeV1(account: Bytes, authority: Bytes)
    | ActivateV1(account: Bytes, authority: Bytes, fee: int, expiry: int, treasury: Bytes)
    | WithdrawV2(
        account: Bytes, nonce: int, amount: int, destination: Bytes, expiry: int, maxFee: int, policy: int)
    | WithdrawTokenV2(
        account: Bytes, nonce: int, amount: int, destination: Bytes, expiry: int, maxFee: int, policy: int,
        source: Bytes)
    | InitializeV2(account: Bytes, authority: Bytes)
    | ActivateV2(account: Bytes, authority: Bytes, maxFee: int, policy: int, expiry: int)
    | UpdateAuthorityV2(account: Bytes, nonce: int, authority: Bytes, expiry: int)
    | CloseV2(account: Bytes, nonce: int, destination: Bytes, expiry: int)
    | WithdrawV3(account: Bytes, nonce: int, amount: int, destination: Bytes, expiry: int, policy: int)
    | WithdrawTokenV3(
        account: Bytes, nonce: int, amount: int, destination: Bytes, expiry: int, policy: int, source: Bytes)
    | InitializeV3(account: Bytes, authority: Bytes)
    | ActivateV3(account: Bytes, authority: Bytes, policy: int, expiry: int)
    | UpdateAuthorityV3(account: Bytes, nonce: int, authority: Bytes, expiry: int)
    | CloseV3(account: Bytes, nonce: int, destination: Bytes, expiry: int)
    | CloseRequest(account: Bytes, nonce: int, destination: Bytes, expiry: int)
    | CloseCancel(account: Bytes, nonce: int, expiry: int)
    | ExecuteV3(account: Bytes, nonce: int, expiry: int, policy: int, callHash: Bytes)
    | WithdrawV4(
        account: Bytes, nonce: int, amount: int, destination: Bytes, expiry: int, policy: int, maxFee: int)
    | WithdrawTokenV4(
        account: Bytes, nonce: int, amount: int, destination: Bytes, expiry: int, policy: int, maxFee: int,
        source: Bytes)
    | ExecuteV4(account: Bytes, nonce: int, expiry: int, policy: int, maxFee: int, callHash: Bytes)
    | ActivateV4(account: Bytes, authority: Bytes, policy: int, maxFee: int, expiry: int)
    | UpdateAuthorityV5(
        program: Bytes, cluster: Bytes, account: Bytes, nonce: int, authority: Bytes, expiry: int)
    | ExecuteV5(
        program: Bytes, cluster: Bytes, account: Bytes, nonce: int, expiry: int, policy: int, callHash: Bytes)
    | RegisterSession(
        account: Bytes, nonce: int, session: Bytes, program: Bytes, expiresAt: int, hasAuthority: bool,
        authority: Bytes, slot: int, expiry: int)
    | RevokeSession(account: Bytes, session: Bytes, nonce: int, expiry: int)
    | CloseSession(account: Bytes, session: Bytes, destination: Bytes, nonce: int, expiry: int)

  /** The list each builder hands to `concat`, in order. */
  function Parts(m: Message): seq<Field> {
    match m
    case WithdrawV1(nonce, amount, dest, expiry, fee, treasury) =>
      [U64(nonce), U64(amount), Key(dest), I64(expiry), U64(fee), Key(treasury)]
    case WithdrawTokenV1(nonce, amount, dest, expiry, fee, treasury, source) =>
      [U64(nonce), U64(amount), Key(dest), I64(expiry), U64(fee), Key(treasury), Key(source)]
    case InitializeV1(account, authority) => [Loose(32, account), Loose(33, authority)]
    case ActivateV1(account, authority, fee, expiry, treasury) =>
      [Loose(32, account), Loose(33, authority), U64(fee), I64(expiry), Key(treasury)]
    case WithdrawV2(account, nonce, amount, dest, expiry, maxFee, policy) =>
      [Loose(32, account), U64(nonce), U64(amount), Key(dest), I64(expiry), U64(maxFee), U16(policy)]
    case WithdrawTokenV2(account, nonce, amount, dest, expiry, maxFee, policy, source) =>
      [Loose(32, account), U64(nonce), U64(amount), Key(dest), I64(expiry), U64(maxFee), U16(policy), Key(source)]
    case InitializeV2(account, authority) => [Loose(32, account), Loose(33, authority)]
    case ActivateV2(account, authority, maxFee, policy, expiry) =>
      [Loose(32, account), Loose(33, authority), U64(maxFee), U16(policy), I64(expiry)]
    case UpdateAuthorityV2(account, nonce, authority, expiry) =>
      [Loose(32, account), U64(nonce), Loose(33, authority), I64(expiry)]
    case CloseV2(account, nonce, dest, expiry) => [Loose(32, account), U64(nonce), Key(dest), I64(expiry)]
    case WithdrawV3(account, nonce, amount, dest, expiry, policy) =>
      [Loose(32, account), U64(nonce), U64(amount), Key(dest), I64(expiry), U16(policy)]
    case WithdrawTokenV3(account, nonce, amount, dest, expiry, policy, source) =>
      [Loose(32, account), U64(nonce), U64(amount), Key(dest), I64(expiry), U16(policy), Key(source)]
    case InitializeV3(account, authority) => [Loose(32, account), Loose(33, authority)]
    case ActivateV3(account, authority, policy, expiry) =>
      [Loose(32, account), Loose(33, authority), U16(policy), I64(expiry)]
    case UpdateAuthorityV3(account, nonce, authority, expiry) =>
      [Loose(32, account), U64(nonce), Loose(33, authority), I64(expiry)]
    case CloseV3(account, nonce, dest, expiry) => [Loose(32, account), U64(nonce), Key(dest), I64(expiry)]
    case CloseRequest(account, nonce, dest, expiry) => [Loose(32, account), U64(nonce), Key(dest), I64(expiry)]
    case CloseCancel(account, nonce, expiry) => [Loose(32, account), U64(nonce), I64(expiry)]
    case ExecuteV3(account, nonce, expiry, policy, callHash) =>
      [Loose(32, account), U64(nonce), I64(expiry), U16(policy), Fixed(32, callHash)]
    case WithdrawV4(account, nonce, amount, dest, expiry, policy, maxFee) =>
      [Loose(32, account), U64(nonce), U64(amount), Key(dest), I64(expiry), U16(policy), U64(maxFee)]
    case WithdrawTokenV4(account, nonce, amount, dest, expiry, policy, maxFee, source) =>
      [Loose(32, account), U64(nonce), U64(amount), Key(dest), I64(expiry), U16(policy), U64(maxFee), Key(source)]
    case ExecuteV4(account, nonce, expiry, policy, maxFee, callHash) =>
      [Loose(32, account), U64(nonce), I64(expiry), U16(policy), U64(maxFee), Fixed(32, callHash)]
    case ActivateV4(account, authority, policy, maxFee, expiry) =>
      [Loose(32, account), Fixed(33, authority), U16(policy), U64(maxFee), I64(expiry)]
    case UpdateAuthorityV5(program, cluster, account, nonce, authority, expiry) =>
      [Fixed(32, program), Fixed(32, cluster), Loose(32, account), U64(nonce), Fixed(33, authority), I64(expiry)]
    case ExecuteV5(program, cluster, account, nonce, expiry, policy, callHash) =>
      [Fixed(32, program), Fixed(32, cluster), Loose(32, account), U64(nonce), I64(expiry), U16(policy),
       Fixed(32, callHash)]
    case RegisterSession(account, nonce, session, program, expiresAt, hasAuthority, authority, slot, expiry) =>
      [Loose(32, account), U64(nonce), Key(session), Key(program), I64(expiresAt),
       U8(if hasAuthority then 1 else 0), Fixed(32, authority), U64(slot), I64(expiry)]
    case RevokeSession(account, session, nonce, expiry) =>
      [Loose(32, account), Key(session), U64(nonce), I64(expiry)]
    case CloseSession(account, session, dest, nonce, expiry) =>
      [Loose(32, account), Key(session), Key(dest), U64(nonce), I64(expiry)]
  }

  /** The SMART_ACCOUNT domain version, or 0 for the SESSION domain. */
  function Version(m: Message): (v: nat)
    ensures v <= 5
  {
    match m
    case WithdrawV1(_, _, _, _, _, _) => 1
    case WithdrawTokenV1(_, _, _, _, _, _, _) => 1
    case InitializeV1(_, _) => 1
    case ActivateV1(_, _, _, _, _) => 1
    case WithdrawV2(_, _, _, _, _, _, _) => 2
    case WithdrawTokenV2(_, _, _, _, _, _, _, _) => 2
    case InitializeV2(_, _) => 2
    case ActivateV2(_, _, _, _, _) => 2
    case UpdateAuthorityV2(_, _, _, _) => 2
    case CloseV2(_, _, _, _) => 2
    case WithdrawV4(_, _, _, _, _, _, _) => 4
    case WithdrawTokenV4(_, _, _, _, _, _, _, _) => 4
    case ExecuteV4(_, _, _, _, _, _) => 4
    case ActivateV4(_, _, _, _, _) => 4
    case UpdateAuthorityV5(_, _, _, _, _, _) => 5
    case ExecuteV5(_, _, _, _, _, _, _) => 5
    case RegisterSession(_, _, _, _, _, _, _, _, _) => 0
    case RevokeSession(_, _, _, _) => 0
    case CloseSession(_, _, _, _, _) => 0
    case _ => 3
  }

  /** Operation tag; V1 payloads have none. */
  function Tag(m: Message): (t: byte) {
    match m
    case InitializeV2(_, _) => 0
    case InitializeV3(_, _) => 0
    case WithdrawV2(_, _, _, _, _, _, _) => 1
    case WithdrawV3(_, _, _, _, _, _) => 1
    case WithdrawTokenV2(_, _, _, _, _, _, _, _) => 2
    case WithdrawTokenV3(_, _, _, _, _, _, _) => 2
    case UpdateAuthorityV2(_, _, _, _) => 3
    case UpdateAuthorityV3(_, _, _, _) => 3
    case CloseV2(_, _, _, _) => 4
    case CloseV3(_, _, _, _) => 4
    case ActivateV2(_, _, _, _, _) => 5
    case ActivateV3(_, _, _, _) => 5
    case ExecuteV3(_, _, _, _, _) => 6
    case RegisterSession(_, _, _, _, _, _, _, _, _) => 7
    case RevokeSession(_, _, _, _) => 9
    case CloseSession(_, _, _, _, _) => 10
    case WithdrawV4(_, _, _, _, _, _, _) => 11
    case WithdrawTokenV4(_, _, _, _, _, _, _, _) => 12
    case ExecuteV4(_, _, _, _, _, _) => 13
    case ActivateV4(_, _, _, _, _) => 14
    case UpdateAuthorityV5(_, _, _, _, _, _) => 20
    case ExecuteV5(_, _, _, _, _, _, _) => 21
    case CloseRequest(_, _, _, _) => 33
    case CloseCancel(_, _, _) => 34
    case _ => 0
  }

  function Ascii(s: string): (bs: Bytes)
    ensures |bs| == |s|
  {
    seq(|s|, i requires 0 <= i < |s| => (s[i] as int) % 256)
  }

  function DomainOf(version: nat): Bytes
    requires version <= 5
  {
    if version == 0 then Ascii("PID|SOLANA|SESSION|v1")
    else Ascii("PID|SOLANA|SMART_ACCOUNT|v") + [48 + version]
  }

  function TagOf(m: Message): Bytes {
    if Version(m) == 1 then [] else [Tag(m)]
  }

  function Preimage(m: Message): Bytes {
    DomainOf(Version(m)) + (TagOf(m) + Concat(Parts(m)))
  }

  /** What the builder hashes, or None where it throws. */
  function Build(m: Message): Option<Bytes> {
    if AllAccepted(Parts(m)) then Some(Preimage(m)) else None
  }

  /** Same version, same operation, and fields that agree up to integer truncation. */
  predicate SameMessage(m: Message, n: Message) {
    Version(m) == Version(n) && TagOf(m) == TagOf(n) && SameFields(Parts(m), Parts(n))
  }

  // ------------------------------------------------------------------
  // Domains, tags and lengths identify the shape
  // ------------------------------------------------------------------

  lemma DomainBytes(version: nat)
    requires version <= 5
    ensures var d := DomainOf(version);
            if version == 0 then |d| == 21 && d[12] == 'E' as int
            else |d| == 27 && d[12] == 'M' as int && d[26] == 48 + version
  {
  }

  /** The domain is readable off the front of any payload. */
  lemma DomainPrefixFree(v: nat, w: nat, xs: Bytes, ys: Bytes)
    requires v <= 5 && w <= 5
    requires DomainOf(v) + xs == DomainOf(w) + ys
    ensures v == w && xs == ys
  {
    hide DomainOf;
    DomainBytes(v);
    DomainBytes(w);
    var p, q := DomainOf(v) + xs, DomainOf(w) + ys;
    assert p[12] == DomainOf(v)[12] && q[12] == DomainOf(w)[12];
    if v != 0 && w != 0 {
      assert p[26] == DomainOf(v)[26] && q[26] == DomainOf(w)[26];
    }
    AppendInjective(DomainOf(v), xs, DomainOf(w), ys);
  }

  /** V1 has no op-tag: its four shapes are told apart by their lengths alone. */
  lemma V1Lengths(m: Message)
    requires Version(m) == 1
    ensures Size(Parts(m))
         == if m.WithdrawV1? then 96 else if m.WithdrawTokenV1? then 128 else if m.InitializeV1? then 65 else 113
  {
    var fs := Parts(m);
    if |fs| == 2 {
      assert Size(fs) == fs[0].width + (fs[1].width + Size(fs, 2));
    } else {
      SizeOf3(fs, 0);
      if |fs| == 5 {
        assert Size(fs, 3) == fs[3].width + (fs[4].width + Size(fs, 5));
      } else {
        SizeOf3(fs, 3);
      }
    }
  }

  lemma EqualAtEveryIndex(fs: seq<Field>, gs: seq<Field>)
    requires fs == gs && |fs| >= 2
    ensures fs[0] == gs[0] && fs[1] == gs[1]
    ensures |fs| > 2 ==> fs[2] == gs[2]
    ensures |fs| > 3 ==> fs[3] == gs[3]
    ensures |fs| > 4 ==> fs[4] == gs[4]
    ensures |fs| > 5 ==> fs[5] == gs[5]
    ensures |fs| > 6 ==> fs[6] == gs[6]
    ensures |fs| > 7 ==> fs[7] == gs[7]
    ensures |fs| > 8 ==> fs[8] == gs[8]
  {
  }

  // Version plus tag, or version 1 plus length, fix the constructor: one lemma per version.

  lemma ShapeV1(m: Message, n: Message)
    requires Version(m) == Version(n) == 1 && TagOf(m) == TagOf(n)
    requires Size(Parts(m)) == Size(Parts(n))
    ensures SameTypes(Parts(m), Parts(n))
    ensures Parts(m) == Parts(n) ==> m == n
  {
    hide Size;
    V1Lengths(m);
    V1Lengths(n);
    var fs, gs := Parts(m), Parts(n);
    if fs == gs {
      EqualAtEveryIndex(fs, gs);
    }
  }

  lemma ShapeV2(m: Message, n: Message)
    requires Version(m) == Version(n) == 2 && TagOf(m) == TagOf(n)
    ensures SameTypes(Parts(m), Parts(n))
    ensures Parts(m) == Parts(n) ==> m == n
  {
    assert [Tag(m)][0] == [Tag(n)][0];
    var fs, gs := Parts(m), Parts(n);
    if fs == gs {
      EqualAtEveryIndex(fs, gs);
    }
  }

  lemma ShapeV3(m: Message, n: Message)
    requires Version(m) == Version(n) == 3 && TagOf(m) == TagOf(n)
    ensures SameTypes(Parts(m), Parts(n))
    ensures Parts(m) == Parts(n) ==> m == n
  {
    assert [Tag(m)][0] == [Tag(n)][0];
    var fs, gs := Parts(m), Parts(n);
    if fs == gs {
      EqualAtEveryIndex(fs, gs);
    }
  }

  lemma ShapeV4(m: Message, n: Message)
    requires Version(m) == Version(n) >= 4 && TagOf(m) == TagOf(n)
    ensures SameTypes(Parts(m), Parts(n))
    ensures Parts(m) == Parts(n) ==> m == n
  {
    assert [Tag(m)][0] == [Tag(n)][0];
    var fs, gs := Parts(m), Parts(n);
    if fs == gs {
      EqualAtEveryIndex(fs, gs);
    }
  }

  lemma ShapeSession(m: Message, n: Message)
    requires Version(m) == Version(n) == 0 && TagOf(m) == TagOf(n)
    ensures SameTypes(Parts(m), Parts(n))
    ensures Parts(m) == Parts(n) ==> m == n
  {
    assert [Tag(m)][0] == [Tag(n)][0];
    var fs, gs := Parts(m), Parts(n);
    if fs == gs {
      EqualAtEveryIndex(fs, gs);
    }
  }

  lemma ShapeFromHeader(m: Message, n: Message)
    requires Version(m) == Version(n) && TagOf(m) == TagOf(n)
    requires Version(m) == 1 ==> Size(Parts(m)) == Size(Parts(n))
    ensures SameTypes(Parts(m), Parts(n))
    ensures Parts(m) == Parts(n) ==> m == n
  {
    hide Version, TagOf, Parts, SameTypes, Size;
    if Version(m) == 0 {
      ShapeSession(m, n);
    } else if Version(m) == 1 {
      ShapeV1(m, n);
    } else if Version(m) == 2 {
      ShapeV2(m, n);
    } else if Version(m) == 3 {
      ShapeV3(m, n);
    } else {
      ShapeV4(m, n);
    }
  }

  lemma HeaderSplit(m: Message, n: Message)
    ensures Preimage(m) == Preimage(n)
       <==> Version(m) == Version(n) && TagOf(m) == TagOf(n) && Concat(Parts(m)) == Concat(Parts(n))
  {
    hide DomainOf, Version, Tag, Parts, Concat;
    if Preimage(m) == Preimage(n) {
      DomainPrefixFree(Version(m), Version(n), TagOf(m) + Concat(Parts(m)), TagOf(n) + Concat(Parts(n)));
      AppendInjective(TagOf(m), Concat(Parts(m)), TagOf(n), Concat(Parts(n)));
    }
  }

  lemma EqualPreimagesSameMessage(m: Message, n: Message)
    requires AllAccepted(Parts(m)) && AllSized(Parts(m)) && AllAccepted(Parts(n)) && AllSized(Parts(n))
    requires Preimage(m) == Preimage(n)
    ensures SameMessage(m, n)
  {
    hide Preimage, Parts, Version, TagOf, Concat, Size, AllAccepted, Sized, SameTypes, SameField;
    HeaderSplit(m, n);
    ConcatSize(Parts(m), 0);
    ConcatSize(Parts(n), 0);
    ShapeFromHeader(m, n);
    ConcatSame(Parts(m), Parts(n));
  }

  lemma SameMessageEqualPreimages(m: Message, n: Message)
    requires AllAccepted(Parts(m)) && AllSized(Parts(m)) && AllAccepted(Parts(n)) && AllSized(Parts(n))
    requires SameMessage(m, n)
    ensures Preimage(m) == Preimage(n)
  {
    hide Preimage, Parts, Version, TagOf, Concat, AllAccepted, AllSized, SameTypes, SameFields;
    HeaderSplit(m, n);
    SameFieldsSameTypes(Parts(m), Parts(n));
    ConcatSame(Parts(m), Parts(n));
  }

  /**
   The design claim of the payload layer: two builder calls hash the same bytes exactly
   when they are the same operation of the same version with the same fields, integers
   counting modulo their width. Fields the builders do not check must have their width.
   */
  lemma PreimagesIdentifyMessages(m: Message, n: Message)
    requires Build(m).Some? && AllSized(Parts(m)) && Build(n).Some? && AllSized(Parts(n))
    ensures Build(m) == Build(n) <==> SameMessage(m, n)
  {
    hide Preimage, Parts, SameMessage, AllAccepted, AllSized;
    if Build(m) == Build(n) {
      EqualPreimagesSameMessage(m, n);
    } else if SameMessage(m, n) {
      SameMessageEqualPreimages(m, n);
    }
  }

  /** With integers in range, equal preimages are equal requests: same version, operation and values. */
  lemma PreimageInjective(m: Message, n: Message)
    requires Build(m).Some? && AllSized(Parts(m)) && AllInRange(Parts(m))
    requires Build(n).Some? && AllSized(Parts(n)) && AllInRange(Parts(n))
    requires Build(m) == Build(n)
    ensures m == n
  {
    hide Preimage, Parts, Version, TagOf, Concat, Size, Accepted, Sized, InRange, SameField;
    PreimagesIdentifyMessages(m, n);
    var fs, gs := Parts(m), Parts(n);
    forall i | 0 <= i < |fs|
      ensures fs[i] == gs[i]
    {
      InRangeSame(fs[i], gs[i]);
    }
    assert fs == gs;
    ShapeFromHeader(m, n);
  }

  // ---- Without conditions on widths ----

  lemma TaggedShape(m: Message, n: Message)
    requires Version(m) == Version(n) != 1 && TagOf(m) == TagOf(n)
    ensures SameTypes(Parts(m), Parts(n))
  {
    hide Version, TagOf, Parts, SameTypes, Size;
    ShapeFromHeader(m, n);
  }

  /**
   For all tagged messages and all widths of the account ids and authorities the builders do
   not measure: one preimage exactly when version and operation agree, every measured field
   does, and the bytes from the first to the last unmeasured field do.
   */
  lemma UnmeasuredExactly(m: Message, n: Message)
    requires Version(m) != 1 && Build(m).Some? && Build(n).Some?
    ensures Build(m) == Build(n) <==>
            Version(m) == Version(n) && TagOf(m) == TagOf(n) && SameUnmeasured(Parts(m), Parts(n))
  {
    hide Preimage, Parts, Version, TagOf, Concat, Accepted, SameUnmeasured;
    HeaderSplit(m, n);
    if Version(m) == Version(n) && TagOf(m) == TagOf(n) {
      TaggedShape(m, n);
      UnmeasuredFields(Parts(m), Parts(n));
    }
  }

  /** Messages whose account id is the only unmeasured field. */
  predicate OnlyAccountLoose(m: Message) {
    && Version(m) != 1
    && !m.InitializeV2? && !m.InitializeV3? && !m.ActivateV2? && !m.ActivateV3?
    && !m.UpdateAuthorityV2? && !m.UpdateAuthorityV3?
  }

  function AccountIndex(m: Message): nat {
    if Version(m) == 5 then 2 else 0
  }

  lemma AccountIsOnlyLoose(m: Message)
    requires OnlyAccountLoose(m)
    ensures Version(m) != 1 && OnlyLoose(Parts(m), AccountIndex(m))
  {
  }

  lemma OneUnmeasured(m: Message, n: Message, k: nat)
    requires Version(m) != 1 && OnlyLoose(Parts(m), k) && Build(m).Some? && Build(n).Some?
    ensures Build(m) == Build(n) <==> SameMessage(m, n)
  {
    hide Preimage, Parts, Version, TagOf, Tag, Concat, AllAccepted, SameFields, OnlyLoose, SameTypes;
    HeaderSplit(m, n);
    if Version(m) == Version(n) && TagOf(m) == TagOf(n) {
      TaggedShape(m, n);
      OnlyLooseSame(Parts(m), Parts(n), k);
    }
  }

  /** Those are identified by their preimages whatever the width of the account id. */
  lemma AccountWidthFree(m: Message, n: Message)
    requires OnlyAccountLoose(m) && Build(m).Some? && Build(n).Some?
    ensures Build(m) == Build(n) <==> SameMessage(m, n)
  {
    hide *;
    AccountIsOnlyLoose(m);
    OneUnmeasured(m, n, AccountIndex(m));
  }
}
