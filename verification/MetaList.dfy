/**
 Account metas inside instruction data, written by `serializeExecuteCall` and
 `serializeSessionMetas` (`packages/core/src/hash.ts`), and the bounds-checked reads with
 which the on-chain program takes them apart
 (`contracts/svm/smart-account/src/instructions/mod.rs`).
 */
module MetaList {
  import opened Bytes

  /** A Solana public key. */
  type Address = b: Bytes | |b| == 32 witness Zeros(32)

  /** `ExecuteMeta`, and `SessionMeta` with its `sessionSigner` as `signer`. */
  datatype Meta = Meta(address: Address, writable: bool, signer: bool)

  /** What the program keeps of one meta. */
  datatype RawMeta = RawMeta(address: Address, flags: byte)

  /** An outer account of a transaction instruction. */
  datatype AccountKey = AccountKey(pubkey: Address, isSigner: bool, isWritable: bool)

  function Flags(m: Meta): byte {
    (if m.writable then 1 else 0) + (if m.signer then 2 else 0)
  }

  /** `flags & 0x01` and `flags & 0x02` of the program. */
  predicate WritableBit(flags: byte) { flags % 2 == 1 }
  predicate SignerBit(flags: byte) { (flags / 2) % 2 == 1 }

  function MetaBytes(m: Meta): (bs: Bytes)
    ensures |bs| == 33
  {
    m.address + [Flags(m)]
  }

  function MetasBytes(metas: seq<Meta>, i: nat := 0): Bytes
    requires i <= |metas|
    decreases |metas| - i
  {
    if i == |metas| then [] else MetaBytes(metas[i]) + MetasBytes(metas, i + 1)
  }

  function Raw(metas: seq<Meta>): (rs: seq<RawMeta>)
    ensures |rs| == |metas|
  {
    seq(|metas|, i requires 0 <= i < |metas| => RawMeta(metas[i].address, Flags(metas[i])))
  }

  /** The flags byte gives back both booleans. */
  lemma FlagBits(m: Meta)
    ensures WritableBit(Flags(m)) == m.writable
    ensures SignerBit(Flags(m)) == m.signer
    ensures Flags(m) < 4
  {
  }

  lemma RawInjective(a: seq<Meta>, b: seq<Meta>)
    requires Raw(a) == Raw(b)
    ensures a == b
  {
    assert |a| == |Raw(a)| == |Raw(b)| == |b|;
    forall i | 0 <= i < |a|
      ensures a[i] == b[i]
    {
      assert Raw(a)[i] == Raw(b)[i];
      FlagBits(a[i]);
      FlagBits(b[i]);
    }
  }

  lemma {:induction false} MetasLength(metas: seq<Meta>, i: nat)
    requires i <= |metas|
    ensures |MetasBytes(metas, i)| == 33 * (|metas| - i)
    decreases |metas| - i
  {
    if i < |metas| {
      MetasLength(metas, i + 1);
    }
  }

  lemma {:induction false} MetasSnoc(metas: seq<Meta>, k: nat, i: nat)
    requires i <= k < |metas|
    ensures MetasBytes(metas[..k + 1], i) == MetasBytes(metas[..k], i) + MetaBytes(metas[k])
    decreases k - i
  {
    hide MetaBytes;
    if i < k {
      MetasSnoc(metas, k, i + 1);
      Assoc(MetaBytes(metas[i]), MetasBytes(metas[..k], i + 1), MetaBytes(metas[k]));
    } else {
      assert MetasBytes(metas[..k + 1], k + 1) == [];
      assert MetaBytes(metas[k]) + [] == MetaBytes(metas[k]);
    }
  }

  /** `read_bytes` and `read_array`: the slice when it is inside the data. */
  function Read(data: Bytes, offset: nat, len: nat): (r: Option<Bytes>)
    ensures r.Some? ==> |r.value| == len
  {
    if offset + len <= |data| then Some(data[offset..offset + len]) else None
  }

  function ReadUnsigned(data: Bytes, offset: nat, width: nat): Option<nat> {
    var bs :- Read(data, offset, width);
    Some(ValueLE(bs))
  }

  /** `i64::from_le_bytes`: two's complement. */
  function Signed(v: int, width: nat): int {
    if v < Pow256(width) / 2 then v else v - Pow256(width)
  }

  function ReadAddress(data: Bytes, offset: nat): Option<Address> {
    Read(data, offset, 32)
  }

  /** `read_bytes(offset, 1)?[0]`. */
  function ReadByte(data: Bytes, offset: nat): Option<byte> {
    if offset + 1 <= |data| then Some(data[offset]) else None
  }

  /** The program's meta loop from cursor `off`, with `n` metas still to read. */
  function ReadMetas(data: Bytes, off: nat, n: nat): (r: Option<seq<RawMeta>>)
    ensures r.Some? ==> |r.value| == n
    decreases n
  {
    if n == 0 then Some([]) else
    var address :- ReadAddress(data, off);
    var flags :- ReadByte(data, off + 32);
    var rest :- ReadMetas(data, off + 33, n - 1);
    Some([RawMeta(address, flags)] + rest)
  }

  lemma ReadAt(data: Bytes, offset: nat, part: Bytes)
    requires At(data, offset, part)
    ensures Read(data, offset, |part|) == Some(part)
  {
  }

  lemma ReadUnsignedAt(data: Bytes, offset: nat, n: int, width: nat)
    requires At(data, offset, LE(n, width))
    ensures ReadUnsigned(data, offset, width) == Some(n % Pow256(width))
  {
    hide LE, Pow256, ValueLE;
    ReadAt(data, offset, LE(n, width));
    ValueOfLE(n, width);
  }

  lemma ReadByteAt(data: Bytes, offset: nat, b: byte)
    requires At(data, offset, [b])
    ensures ReadByte(data, offset) == Some(b)
  {
    assert data[offset..offset + 1][0] == b;
  }

  lemma ReadMetaAt(data: Bytes, off: nat, m: Meta)
    requires At(data, off, MetaBytes(m))
    ensures ReadAddress(data, off) == Some(m.address)
    ensures ReadByte(data, off + 32) == Some(Flags(m))
  {
    hide ReadByte, At, Flags;
    AtSplit(data, off, m.address, [Flags(m)]);
    ReadAt(data, off, m.address);
    ReadByteAt(data, off + 32, Flags(m));
  }

  /** The program's loop reads back exactly the metas that were serialized. */
  lemma {:induction false} ReadMetasBack(data: Bytes, off: nat, metas: seq<Meta>, i: nat)
    requires i <= |metas| && At(data, off, MetasBytes(metas, i))
    ensures ReadMetas(data, off, |metas| - i) == Some(Raw(metas)[i..])
    decreases |metas| - i
  {
    hide ReadAddress, ReadByte, At, Flags, MetaBytes;
    if i < |metas| {
      var m := metas[i];
      assert MetasBytes(metas, i) == MetaBytes(m) + MetasBytes(metas, i + 1);
      AtSplit(data, off, MetaBytes(m), MetasBytes(metas, i + 1));
      assert |MetaBytes(m)| == 33;
      ReadMetaAt(data, off, m);
      ReadMetasBack(data, off + 33, metas, i + 1);
      assert Raw(metas)[i] == RawMeta(m.address, Flags(m));
      assert Raw(metas)[i..] == [Raw(metas)[i]] + Raw(metas)[i + 1..];
    } else {
      assert Raw(metas)[i..] == [];
    }
  }

  /** In-range unsigned values and signed values survive the little-endian trip. */
  lemma UnsignedExact(n: int, width: nat)
    requires 0 <= n < Pow256(width)
    ensures n % Pow256(width) == n
  {
    DivModUnique(n, Pow256(width), 0, n);
  }

  lemma SignedExact(n: int, width: nat)
    requires -(Pow256(width) / 2) <= n < Pow256(width) / 2 && width > 0
    ensures Signed(n % Pow256(width), width) == n
  {
    var p := Pow256(width);
    assert p == 256 * Pow256(width - 1);
    if n >= 0 {
      DivModUnique(n, p, 0, n);
    } else {
      DivModUnique(n, p, -1, n + p);
    }
  }
}
