/**
 `buildSessionExecuteInstruction` (`packages/solana/src/instructions.ts`) with
 `serializeSessionMetas` (`packages/core/src/hash.ts`), against the parser and the
 confinement checks of `contracts/svm/smart-account/src/instructions/session_execute.rs`.
 */
module SessionInstruction {
  import opened Bytes
  import opened MetaList

  const MAX_METAS: nat := 32
  const MAX_GAME_DATA: nat := 1024
  const MAX_PROTECTED: nat := 8
  const DISCRIMINATOR: byte := 8

  datatype GameAccount = GameAccount(address: Address, writable: bool)

  datatype Request = Request(
    sessionPda: Address,
    gameProgram: Address,
    gameProgramData: Address,
    sessionSigner: Address,
    vault: Address,
    sequence: int,
    gameData: Bytes,
    metas: seq<Meta>,
    gameAccounts: seq<GameAccount>,
    protected: seq<Address>,
    programId: Address)

  datatype Instruction = Instruction(keys: seq<AccountKey>, programId: Address, data: Bytes)

  /** The metas without the session-signer bit, in order. */
  function Forwarded(metas: seq<Meta>): seq<GameAccount> {
    if metas == [] then []
    else
      var last := metas[|metas| - 1];
      Forwarded(metas[..|metas| - 1]) + if last.signer then [] else [GameAccount(last.address, last.writable)]
  }

  function Addresses(accounts: seq<GameAccount>): (r: seq<Address>)
    ensures |r| == |accounts|
  {
    seq(|accounts|, i requires 0 <= i < |accounts| => accounts[i].address)
  }

  predicate Names(metas: seq<Meta>, a: Address) {
    exists i :: 0 <= i < |metas| && metas[i].address == a
  }

  /** What the builder demands of the metas one by one. */
  predicate MetaAllowed(m: Meta, q: Request) {
    m.address != q.vault && (m.signer ==> m.address == q.sessionPda)
  }

  predicate SomeSigner(metas: seq<Meta>) {
    exists i :: 0 <= i < |metas| && metas[i].signer
  }

  /** Exactly the requests the builder does not throw on. */
  predicate Buildable(q: Request) {
    && q.gameProgram != q.programId
    && (forall i :: 0 <= i < |q.metas| ==> MetaAllowed(q.metas[i], q))
    && SomeSigner(q.metas)
    && Addresses(q.gameAccounts) == Addresses(Forwarded(q.metas))
    && |q.protected| <= MAX_PROTECTED
    && (forall i :: 0 <= i < |q.protected| ==> Names(q.metas, q.protected[i]))
    && 1 <= |q.metas| <= MAX_METAS
  }

  function AddressBytes(accounts: seq<Address>, i: nat := 0): Bytes
    requires i <= |accounts|
    decreases |accounts| - i
  {
    if i == |accounts| then [] else accounts[i] + AddressBytes(accounts, i + 1)
  }

  function Lists(q: Request): Bytes {
    [|q.metas| % 256] + (MetasBytes(q.metas) + ([|q.protected| % 256] + AddressBytes(q.protected)))
  }

  function Body(q: Request): Bytes {
    LE(q.sequence, 8) + (LE(|q.gameData|, 2) + (q.gameData + Lists(q)))
  }

  function Keys(q: Request): seq<AccountKey> {
    [AccountKey(q.vault, false, false),
     AccountKey(q.sessionPda, false, true),
     AccountKey(q.gameProgram, false, false),
     AccountKey(q.gameProgramData, false, false),
     AccountKey(q.sessionSigner, true, false)]
    + seq(|q.gameAccounts|, i requires 0 <= i < |q.gameAccounts| =>
        AccountKey(q.gameAccounts[i].address, false, q.gameAccounts[i].writable))
  }

  /** `serializeSessionMetas`. */
  method SerializeSessionMetas(metas: seq<Meta>) returns (r: Option<Bytes>)
    ensures r == if 1 <= |metas| <= MAX_METAS then Some([|metas| % 256] + MetasBytes(metas)) else None
  {
    if |metas| == 0 || |metas| > MAX_METAS {
      return None;
    }
    var parts: Bytes := [|metas| % 256];
    var i := 0;
    while i < |metas|
      invariant 0 <= i <= |metas|
      invariant parts == [|metas| % 256] + MetasBytes(metas[..i])
    {
      hide MetasBytes;
      var m := metas[i];
      MetasSnoc(metas, i, 0);
      parts := parts + m.address + [(if m.writable then 1 else 0) + (if m.signer then 2 else 0)];
      i := i + 1;
    }
    assert metas[..i] == metas;
    return Some(parts);
  }

  lemma ForwardedStep(metas: seq<Meta>, k: nat)
    requires k < |metas|
    ensures Forwarded(metas[..k + 1])
         == Forwarded(metas[..k]) + if metas[k].signer then [] else [GameAccount(metas[k].address, metas[k].writable)]
  {
    assert metas[..k + 1][..k] == metas[..k];
  }

  /** The loop over the metas: reject the vault and stray signers, collect the rest. */
  method CollectForwarded(q: Request) returns (r: Option<seq<GameAccount>>)
    ensures r == if (forall i :: 0 <= i < |q.metas| ==> MetaAllowed(q.metas[i], q)) && SomeSigner(q.metas)
                 then Some(Forwarded(q.metas)) else None
  {
    var sessionSigns := false;
    var forwarded: seq<GameAccount> := [];
    var i := 0;
    while i < |q.metas|
      invariant 0 <= i <= |q.metas|
      invariant forall k :: 0 <= k < i ==> MetaAllowed(q.metas[k], q)
      invariant sessionSigns <==> exists k :: 0 <= k < i && q.metas[k].signer
      invariant forwarded == Forwarded(q.metas[..i])
    {
      var m := q.metas[i];
      hide Forwarded, MetaAllowed;
      ForwardedStep(q.metas, i);
      if m.address == q.vault {
        assert !MetaAllowed(m, q);
        return None;
      }
      if m.signer {
        if m.address != q.sessionPda {
          assert !MetaAllowed(m, q);
          return None;
        }
        sessionSigns := true;
      } else {
        forwarded := forwarded + [GameAccount(m.address, m.writable)];
      }
      i := i + 1;
    }
    if !sessionSigns {
      return None;
    }
    assert q.metas[..i] == q.metas;
    return Some(forwarded);
  }

  /** Nothing forwarded is the vault, so the builder's second look for it never fires. */
  lemma {:induction false} ForwardedAllowed(metas: seq<Meta>, q: Request)
    requires forall i :: 0 <= i < |metas| ==> MetaAllowed(metas[i], q)
    ensures forall i :: 0 <= i < |Forwarded(metas)| ==> Forwarded(metas)[i].address != q.vault
  {
    if metas != [] {
      var n := |metas| - 1;
      ForwardedAllowed(metas[..n], q);
      assert MetaAllowed(metas[n], q);
    }
  }

  /** `forwarded.forEach`: the game accounts are the forwarded ones in order. */
  method InOrder(forwarded: seq<GameAccount>, q: Request) returns (ok: bool)
    requires forall i :: 0 <= i < |forwarded| ==> forwarded[i].address != q.vault
    ensures ok <==> Addresses(q.gameAccounts) == Addresses(forwarded)
  {
    if |forwarded| != |q.gameAccounts| {
      assert |Addresses(q.gameAccounts)| != |Addresses(forwarded)|;
      return false;
    }
    var i := 0;
    while i < |forwarded|
      invariant 0 <= i <= |forwarded|
      invariant forall k :: 0 <= k < i ==> forwarded[k].address == q.gameAccounts[k].address
    {
      if forwarded[i].address != q.gameAccounts[i].address || forwarded[i].address == q.vault {
        assert Addresses(forwarded)[i] != Addresses(q.gameAccounts)[i];
        return false;
      }
      i := i + 1;
    }
    return true;
  }

  method ProtectedNamed(q: Request) returns (ok: bool)
    ensures ok <==> forall i :: 0 <= i < |q.protected| ==> Names(q.metas, q.protected[i])
  {
    var i := 0;
    while i < |q.protected|
      invariant 0 <= i <= |q.protected|
      invariant forall k :: 0 <= k < i ==> Names(q.metas, q.protected[k])
    {
      if !Names(q.metas, q.protected[i]) {
        return false;
      }
      i := i + 1;
    }
    return true;
  }

  method BuildSessionExecuteInstruction(q: Request) returns (r: Option<Instruction>)
    ensures r == if Buildable(q) then Some(Instruction(Keys(q), q.programId, [DISCRIMINATOR] + Body(q))) else None
  {
    hide LE, MetasBytes, AddressBytes, Forwarded, Keys, Names, MetaAllowed, Addresses, SomeSigner;
    if q.gameProgram == q.programId {
      return None;
    }
    var forwarded := CollectForwarded(q);
    if forwarded.None? {
      return None;
    }
    ForwardedAllowed(q.metas, q);
    var ordered := InOrder(forwarded.value, q);
    if !ordered || |q.protected| > MAX_PROTECTED {
      return None;
    }
    var named := ProtectedNamed(q);
    if !named {
      return None;
    }
    var metas := SerializeSessionMetas(q.metas);
    if metas.None? {
      return None;
    }
    var data := [DISCRIMINATOR] + LE(q.sequence, 8) + LE(|q.gameData|, 2) + q.gameData + metas.value
      + [|q.protected| % 256] + AddressBytes(q.protected);
    assert data == [DISCRIMINATOR] + Body(q);
    return Some(Instruction(Keys(q), q.programId, data));
  }

  // The on-chain side.

  datatype Parsed = Parsed(sequence: int, gameData: Bytes, metas: seq<RawMeta>, protected: seq<Address>)

  function ReadAddresses(data: Bytes, off: nat, n: nat): (r: Option<seq<Address>>)
    decreases n
  {
    if n == 0 then Some([]) else
    var a :- ReadAddress(data, off);
    var rest :- ReadAddresses(data, off + 32, n - 1);
    Some([a] + rest)
  }

  predicate KnownFlags(metas: seq<RawMeta>) {
    forall i :: 0 <= i < |metas| ==> metas[i].flags < 4
  }

  function ParseLists(data: Bytes, cursor: nat, sequence: int, gameData: Bytes): Option<Parsed> {
    var count :- ReadByte(data, cursor);
    if count == 0 || count > 32 then None else
    var metas :- ReadMetas(data, cursor + 1, count);
    if !KnownFlags(metas) then None else
    var protectedCount :- ReadByte(data, cursor + 1 + 33 * count);
    if protectedCount > 8 then None else
    var protected :- ReadAddresses(data, cursor + 2 + 33 * count, protectedCount);
    Some(Parsed(sequence, gameData, metas, protected))
  }

  /** The reads of `session_execute::process`; `cap` is `MAX_SESSION_DATA` there. */
  function Parse(data: Bytes, cap: nat): Option<Parsed> {
    var sequence :- ReadUnsigned(data, 0, 8);
    var len :- ReadUnsigned(data, 8, 2);
    if len > cap then None else
    var gameData :- Read(data, 10, len);
    ParseLists(data, 10 + len, sequence, gameData)
  }

  predicate NamesRaw(metas: seq<RawMeta>, a: Address) {
    exists i :: 0 <= i < |metas| && metas[i].address == a
  }

  /** Addresses of the metas without the session-signer bit, in order. */
  function RawForwarded(metas: seq<RawMeta>): seq<Address> {
    if metas == [] then []
    else
      var last := metas[|metas| - 1];
      RawForwarded(metas[..|metas| - 1]) + if SignerBit(last.flags) then [] else [last.address]
  }

  /** How many metas from `i` on lack the session-signer bit. */
  function NonSession(metas: seq<RawMeta>, i: nat := 0): nat
    requires i <= |metas|
    decreases |metas| - i
  {
    if i == |metas| then 0 else (if SignerBit(metas[i].flags) then 0 else 1) + NonSession(metas, i + 1)
  }

  /** The program's structural checks on the parsed call and the outer accounts. */
  predicate Confined(keys: seq<AccountKey>, programId: Address, p: Parsed) {
    && |keys| >= 5
    && keys[4].isSigner
    && keys[2].pubkey != programId
    && (forall i :: 0 <= i < |p.metas| ==> p.metas[i].address != keys[0].pubkey)
    && (forall i :: 5 <= i < |keys| ==> keys[i].pubkey != keys[0].pubkey)
    && (forall i :: 0 <= i < |p.metas| && SignerBit(p.metas[i].flags) ==> p.metas[i].address == keys[1].pubkey)
    && (exists i :: 0 <= i < |p.metas| && SignerBit(p.metas[i].flags))
    && |keys| == 5 + NonSession(p.metas)
    && (forall i :: 5 <= i < |keys| && i - 5 < |RawForwarded(p.metas)| ==>
          keys[i].pubkey == RawForwarded(p.metas)[i - 5])
    && (forall j :: 0 <= j < |p.protected| ==> NamesRaw(p.metas, p.protected[j]))
  }

  lemma {:induction false} ReadAddressesBack(data: Bytes, off: nat, accounts: seq<Address>, i: nat)
    requires i <= |accounts| && At(data, off, AddressBytes(accounts, i))
    ensures ReadAddresses(data, off, |accounts| - i) == Some(accounts[i..])
    decreases |accounts| - i
  {
    hide At, Read;
    if i < |accounts| {
      AtSplit(data, off, accounts[i], AddressBytes(accounts, i + 1));
      ReadAt(data, off, accounts[i]);
      ReadAddressesBack(data, off + 32, accounts, i + 1);
      assert accounts[i..] == [accounts[i]] + accounts[i + 1..];
    } else {
      assert accounts[i..] == [];
    }
  }

  lemma RawFlagsKnown(metas: seq<Meta>)
    ensures KnownFlags(Raw(metas))
  {
    forall i | 0 <= i < |metas|
      ensures Raw(metas)[i].flags < 4
    {
      FlagBits(metas[i]);
    }
  }

  lemma ListsParseBack(data: Bytes, at: nat, q: Request, sequence: int, gameData: Bytes)
    requires 1 <= |q.metas| <= MAX_METAS && |q.protected| <= MAX_PROTECTED
    requires At(data, at, Lists(q))
    ensures ParseLists(data, at, sequence, gameData) == Some(Parsed(sequence, gameData, Raw(q.metas), q.protected))
  {
    hide At, MetasBytes, AddressBytes, ReadMetas, ReadAddresses, ReadByte, Raw, KnownFlags;
    var tail := [|q.protected| % 256] + AddressBytes(q.protected);
    AtSplit(data, at, [|q.metas| % 256], MetasBytes(q.metas) + tail);
    AtSplit(data, at + 1, MetasBytes(q.metas), tail);
    MetasLength(q.metas, 0);
    var mid := at + 1 + 33 * |q.metas|;
    AtSplit(data, mid, [|q.protected| % 256], AddressBytes(q.protected));
    ReadByteAt(data, at, |q.metas| % 256);
    ReadMetasBack(data, at + 1, q.metas, 0);
    assert Raw(q.metas)[0..] == Raw(q.metas);
    RawFlagsKnown(q.metas);
    ReadByteAt(data, mid, |q.protected| % 256);
    ReadAddressesBack(data, mid + 1, q.protected, 0);
    assert q.protected[0..] == q.protected;
  }

  lemma LengthPrefix(n: nat)
    requires n < 65536
    ensures n % Pow256(2) == n
  {
    assert Pow256(1) == 256 * Pow256(0);
  }

  /** What the program should obtain. */
  function Received(q: Request): Parsed {
    Parsed(q.sequence % Pow256(8), q.gameData, Raw(q.metas), q.protected)
  }

  lemma BodyParts(q: Request)
    ensures At(Body(q), 0, LE(q.sequence, 8))
    ensures At(Body(q), 8, LE(|q.gameData|, 2))
    ensures At(Body(q), 10, q.gameData)
    ensures At(Body(q), 10 + |q.gameData|, Lists(q))
  {
    hide At, MetasBytes, AddressBytes, LE, Lists;
    var data, lists := Body(q), Lists(q);
    AtFront(data, []);
    assert data + [] == data;
    AtSplit(data, 0, LE(q.sequence, 8), LE(|q.gameData|, 2) + (q.gameData + lists));
    AtSplit(data, 8, LE(|q.gameData|, 2), q.gameData + lists);
    AtSplit(data, 10, q.gameData, lists);
  }

  /**
   Under a cap below 2^16 the program recovers the sequence number (modulo 2^64), game
   data, metas and protected accounts exactly when the game data respects the cap.
   */
  lemma SessionParsesBack(q: Request, cap: nat)
    requires 1 <= |q.metas| <= MAX_METAS && |q.protected| <= MAX_PROTECTED && cap < 65536
    ensures Parse(Body(q), cap) == Some(Received(q)) <==> |q.gameData| <= cap
  {
    hide At, LE, Body, Lists, Raw, Read, ReadUnsigned, ParseLists, Pow256;
    if |q.gameData| <= cap {
      BodyParts(q);
      var data := Body(q);
      ReadUnsignedAt(data, 0, q.sequence, 8);
      ReadUnsignedAt(data, 8, |q.gameData|, 2);
      LengthPrefix(|q.gameData|);
      ReadAt(data, 10, q.gameData);
      ListsParseBack(data, 10 + |q.gameData|, q, q.sequence % Pow256(8), q.gameData);
    } else {
      ParsedWithinCap(Body(q), cap);
    }
  }

  lemma ParsedWithinCap(data: Bytes, cap: nat)
    ensures Parse(data, cap).Some? ==> |Parse(data, cap).value.gameData| <= cap
  {
    hide Read, ReadUnsigned, ReadMetas, ReadAddresses, ReadByte;
  }

  /** Instruction data with game data under 2^16 bytes determines what was built into it. */
  lemma SessionInjective(p: Request, q: Request)
    requires Buildable(p) && Buildable(q) && |p.gameData| < 65536 && |q.gameData| < 65536
    requires 0 <= p.sequence < Pow256(8) && 0 <= q.sequence < Pow256(8)
    requires Body(p) == Body(q)
    ensures p.sequence == q.sequence && p.gameData == q.gameData && p.metas == q.metas && p.protected == q.protected
  {
    hide Body, Parse, Raw, Pow256;
    SessionParsesBack(p, 65535);
    SessionParsesBack(q, 65535);
    RawInjective(p.metas, q.metas);
    UnsignedExact(p.sequence, 8);
    UnsignedExact(q.sequence, 8);
  }

  lemma {:induction false} NonSessionCount(metas: seq<Meta>, k: nat)
    requires k <= |metas|
    ensures |Forwarded(metas[..k])| + NonSession(Raw(metas), k) == NonSession(Raw(metas), 0)
  {
    hide Flags, SignerBit;
    if k > 0 {
      NonSessionCount(metas, k - 1);
      ForwardedStep(metas, k - 1);
      FlagBits(metas[k - 1]);
      assert Raw(metas)[k - 1].flags == Flags(metas[k - 1]);
    } else {
      assert metas[..0] == [];
    }
  }

  /**
   Every instruction the builder returns passes the program's structural checks: the vault
   is in no meta and only at index 0 of the accounts, the game accounts are the non-session
   metas in order, the session key is the only outer signer, and what is protected is named.
   */
  lemma SessionConfined(q: Request)
    requires Buildable(q)
    ensures Confined(Keys(q), q.programId, Received(q))
    ensures forall i :: 0 <= i < |Keys(q)| ==> (Keys(q)[i].isSigner <==> i == 4)
    ensures forall i :: 5 <= i < |Keys(q)| ==> Keys(q)[i].pubkey == Addresses(Forwarded(q.metas))[i - 5]
    ensures AsDocumented(Keys(q), q)
  {
    hide Flags, SignerBit, Pow256, NonSession, Forwarded;
    var keys, raw := Keys(q), Raw(q.metas);
    ForwardedAllowed(q.metas, q);
    forall i | 0 <= i < |raw|
      ensures raw[i].address == q.metas[i].address && SignerBit(raw[i].flags) == q.metas[i].signer
      ensures MetaAllowed(q.metas[i], q)
    {
      FlagBits(q.metas[i]);
    }
    forall i | 5 <= i < |keys|
      ensures keys[i].pubkey == Addresses(Forwarded(q.metas))[i - 5]
    {
      assert keys[i].pubkey == Addresses(q.gameAccounts)[i - 5];
    }
    CoversNonSession(q);
    ProtectedNamedRaw(q);
    RawForwardedIs(q.metas);
  }

  /** The account table of the program: only the session record and the game's own accounts are written. */
  predicate AsDocumented(keys: seq<AccountKey>, q: Request) {
    && |keys| == 5 + |q.gameAccounts|
    && keys[0].pubkey == q.vault && keys[1].pubkey == q.sessionPda && keys[2].pubkey == q.gameProgram
    && keys[3].pubkey == q.gameProgramData && keys[4].pubkey == q.sessionSigner
    && (forall i :: 0 <= i < 5 ==> (keys[i].isWritable <==> i == 1))
    && (forall i :: 0 <= i < |q.gameAccounts| ==> (keys[5 + i].isWritable <==> q.gameAccounts[i].writable))
  }

  lemma {:induction false} RawForwardedIs(metas: seq<Meta>)
    ensures RawForwarded(Raw(metas)) == Addresses(Forwarded(metas))
  {
    hide Flags, SignerBit;
    if metas != [] {
      var n := |metas| - 1;
      RawForwardedIs(metas[..n]);
      assert Raw(metas)[..n] == Raw(metas[..n]);
      FlagBits(metas[n]);
    }
  }

  lemma CoversNonSession(q: Request)
    requires Buildable(q)
    ensures |Keys(q)| == 5 + NonSession(Raw(q.metas))
  {
    hide Flags, SignerBit;
    NonSessionCount(q.metas, |q.metas|);
    assert q.metas[..|q.metas|] == q.metas;
    assert |q.gameAccounts| == |Addresses(q.gameAccounts)| == |Addresses(Forwarded(q.metas))|;
  }

  lemma ProtectedNamedRaw(q: Request)
    requires Buildable(q)
    ensures forall j :: 0 <= j < |q.protected| ==> NamesRaw(Raw(q.metas), q.protected[j])
  {
    hide Flags, Forwarded, Addresses, MetaAllowed;
    forall j | 0 <= j < |q.protected|
      ensures NamesRaw(Raw(q.metas), q.protected[j])
    {
      assert Names(q.metas, q.protected[j]);
      var i :| 0 <= i < |q.metas| && q.metas[i].address == q.protected[j];
      assert Raw(q.metas)[i].address == q.protected[j];
    }
  }

  /** The program's dispatch of a session execute, with its own cap. */
  function ParseInstruction(data: Bytes): Option<Parsed> {
    if data == [] || data[0] != 8 then None else Parse(data[1..], 1024)
  }

  /**
   The program takes a built instruction, whole and confined, exactly when its game data is
   within `MAX_SESSION_DATA`, which the builder does not check.
   */
  lemma SessionAccepted(q: Request)
    requires Buildable(q)
    ensures && ParseInstruction([DISCRIMINATOR] + Body(q)) == Some(Received(q))
            && Confined(Keys(q), q.programId, Received(q))
            <==> |q.gameData| <= 1024
    ensures |q.gameData| < 65536 ==>
              (ParseInstruction([DISCRIMINATOR] + Body(q)).Some? <==> |q.gameData| <= 1024)
  {
    hide Parse, Body, Received, Confined, Keys;
    assert ([DISCRIMINATOR] + Body(q))[1..] == Body(q);
    SessionParsesBack(q, MAX_GAME_DATA);
    SessionConfined(q);
    if MAX_GAME_DATA < |q.gameData| < 65536 {
      LongGameDataRefused(q, MAX_GAME_DATA);
    }
  }

  lemma LongGameDataRefused(q: Request, cap: nat)
    requires cap < |q.gameData| < 65536
    ensures Parse(Body(q), cap).None?
  {
    hide At, LE, Body, Lists, Read, ReadUnsigned, ParseLists, Pow256;
    BodyParts(q);
    ReadUnsignedAt(Body(q), 0, q.sequence, 8);
    ReadUnsignedAt(Body(q), 8, |q.gameData|, 2);
    LengthPrefix(|q.gameData|);
  }

  lemma ListCounts(data: Bytes, cursor: nat, sequence: int, gameData: Bytes)
    ensures var r := ParseLists(data, cursor, sequence, gameData);
            r.Some? ==> 1 <= |r.value.metas| <= 32 && |r.value.protected| <= 8
  {
    hide ReadByte, ReadMetas, ReadAddresses, KnownFlags;
    var count := ReadByte(data, cursor);
    if count.Some? {
      var n: int := count.value;
      var protectedCount := ReadByte(data, cursor + 1 + 33 * n);
      if protectedCount.Some? {
        AddressesCount(data, cursor + 2 + 33 * n, protectedCount.value);
      }
    }
  }

  lemma ParsedCounts(data: Bytes, cap: nat)
    ensures Parse(data, cap).Some? ==>
              1 <= |Parse(data, cap).value.metas| <= 32 && |Parse(data, cap).value.protected| <= 8
  {
    hide Read, ReadUnsigned, ParseLists;
    if Parse(data, cap).Some? {
      var sequence, len := ReadUnsigned(data, 0, 8).value, ReadUnsigned(data, 8, 2).value;
      ListCounts(data, 10 + len, sequence, Read(data, 10, len).value);
    }
  }

  lemma {:induction false} AddressesCount(data: Bytes, off: nat, n: nat)
    ensures ReadAddresses(data, off, n).Some? ==> |ReadAddresses(data, off, n).value| == n
    decreases n
  {
    hide ReadAddress;
    if n > 0 {
      AddressesCount(data, off + 32, n - 1);
    }
  }

  /**
   For game data within the cap, the builder accepts a request exactly when the program parses
   its data back and finds the accounts confined.
   */
  lemma BuildableExactly(q: Request)
    requires |q.gameData| <= 1024
    ensures Buildable(q) <==>
            && ParseInstruction([DISCRIMINATOR] + Body(q)) == Some(Received(q))
            && Confined(Keys(q), q.programId, Received(q))
  {
    if Buildable(q) {
      hide *;
      SessionAccepted(q);
    } else if && ParseInstruction([DISCRIMINATOR] + Body(q)) == Some(Received(q))
              && Confined(Keys(q), q.programId, Received(q)) {
      ConfinedBuildable(q);
    }
  }

  lemma ConfinedBuildable(q: Request)
    requires ParseInstruction([DISCRIMINATOR] + Body(q)) == Some(Received(q))
    requires Confined(Keys(q), q.programId, Received(q))
    ensures Buildable(q)
  {
    hide Parse, Body, Flags, SignerBit, Pow256, NonSession, Forwarded, RawForwarded;
    assert ([DISCRIMINATOR] + Body(q))[1..] == Body(q);
    ParsedCounts(Body(q), 1024);
    var keys, raw := Keys(q), Raw(q.metas);
    forall i | 0 <= i < |raw|
      ensures raw[i].address == q.metas[i].address && SignerBit(raw[i].flags) == q.metas[i].signer
    {
      FlagBits(q.metas[i]);
    }
    RawForwardedIs(q.metas);
    NonSessionIs(q.metas);
    assert forall i :: 0 <= i < |q.gameAccounts| ==> keys[5 + i].pubkey == Addresses(q.gameAccounts)[i];
    assert Addresses(q.gameAccounts) == Addresses(Forwarded(q.metas));
    forall j | 0 <= j < |q.protected|
      ensures Names(q.metas, q.protected[j])
    {
      assert NamesRaw(raw, q.protected[j]);
    }
  }

  lemma NonSessionIs(metas: seq<Meta>)
    ensures NonSession(Raw(metas)) == |Forwarded(metas)|
  {
    hide Flags, SignerBit;
    NonSessionCount(metas, |metas|);
    assert metas[..|metas|] == metas;
  }
}
