/**
 `buildSecp256r1Instruction` (`packages/solana/src/instructions.ts`): the header of 16-bit
 offsets through which the Secp256r1 precompile finds key, signature and message.
 */
module PrecompileInstruction {
  import opened Bytes
  import opened MetaList

  function Header(messageLength: nat): Bytes {
    LE(49, 2) + (LE(0xffff, 2) + (LE(16, 2) + (LE(0xffff, 2) + (LE(113, 2) + (LE(messageLength, 2) + LE(0xffff, 2))))))
  }

  function Data(key: Bytes, signature: Bytes, message: Bytes): Bytes {
    [1, 0] + (Header(|message|) + (key + (signature + message)))
  }

  method BuildSecp256r1Instruction(key: Bytes, signature: Bytes, message: Bytes) returns (r: Option<Bytes>)
    ensures r == if |key| == 33 && |signature| == 64 then Some(Data(key, signature, message)) else None
  {
    if |key| != 33 || |signature| != 64 {
      return None;
    }
    hide LE;
    var offsets := LE(49, 2) + LE(0xffff, 2) + LE(16, 2) + LE(0xffff, 2)
      + LE(113, 2) + LE(|message|, 2) + LE(0xffff, 2);
    assert offsets == Header(|message|);
    assert [1, 0] + offsets + key + signature + message == Data(key, signature, message);
    return Some([1, 0] + offsets + key + signature + message);
  }

  datatype Signed = Signed(key: Bytes, signature: Bytes, message: Bytes)

  /**
   What the precompile resolves for its one signature entry. Each part is looked for in the
   instruction a second index names; 0xffff is this instruction itself.
   */
  function Resolve(data: Bytes): Option<Signed> {
    var count :- ReadByte(data, 0);
    var signatureAt :- ReadUnsigned(data, 2, 2);
    var signatureIn :- ReadUnsigned(data, 4, 2);
    var keyAt :- ReadUnsigned(data, 6, 2);
    var keyIn :- ReadUnsigned(data, 8, 2);
    var messageAt :- ReadUnsigned(data, 10, 2);
    var length :- ReadUnsigned(data, 12, 2);
    var messageIn :- ReadUnsigned(data, 14, 2);
    if count != 1 || signatureIn != 65535 || keyIn != 65535 || messageIn != 65535 then None else
    var key :- Read(data, keyAt, 33);
    var signature :- Read(data, signatureAt, 64);
    var message :- Read(data, messageAt, length);
    Some(Signed(key, signature, message))
  }

  lemma HeaderLength(n: nat)
    ensures |Header(n)| == 14
  {
    hide LE;
  }

  lemma HeaderParts(data: Bytes, n: nat)
    requires At(data, 2, Header(n))
    ensures At(data, 2, LE(49, 2)) && At(data, 6, LE(16, 2)) && At(data, 10, LE(113, 2)) && At(data, 12, LE(n, 2))
    ensures At(data, 4, LE(0xffff, 2)) && At(data, 8, LE(0xffff, 2)) && At(data, 14, LE(0xffff, 2))
  {
    hide LE, At;
    var f := LE(0xffff, 2);
    AtSplit(data, 2, LE(49, 2), f + (LE(16, 2) + (f + (LE(113, 2) + (LE(n, 2) + f)))));
    AtSplit(data, 4, f, LE(16, 2) + (f + (LE(113, 2) + (LE(n, 2) + f))));
    AtSplit(data, 6, LE(16, 2), f + (LE(113, 2) + (LE(n, 2) + f)));
    AtSplit(data, 8, f, LE(113, 2) + (LE(n, 2) + f));
    AtSplit(data, 10, LE(113, 2), LE(n, 2) + f);
    AtSplit(data, 12, LE(n, 2), f);
  }

  lemma BodyParts(key: Bytes, signature: Bytes, message: Bytes)
    requires |key| == 33 && |signature| == 64
    ensures var data := Data(key, signature, message);
            && At(data, 0, [1]) && At(data, 2, Header(|message|)) && At(data, 16, key)
            && At(data, 49, signature) && At(data, 113, message)
  {
    hide At, Header;
    var data := Data(key, signature, message);
    HeaderLength(|message|);
    AtFront(data, []);
    assert data + [] == data;
    AtSplit(data, 0, [1, 0], Header(|message|) + (key + (signature + message)));
    assert [1, 0] == [1] + [0];
    AtSplit(data, 0, [1], [0]);
    AtSplit(data, 2, Header(|message|), key + (signature + message));
    AtSplit(data, 16, key, signature + message);
    AtSplit(data, 49, signature, message);
  }

  lemma SmallExact(n: nat)
    ensures Pow256(2) == 65536
    ensures n < 65536 ==> n % Pow256(2) == n
  {
    assert Pow256(1) == 256 * Pow256(0);
  }

  lemma OffsetsRead(data: Bytes, n: nat)
    requires At(data, 2, Header(n))
    ensures ReadUnsigned(data, 2, 2) == Some(49) && ReadUnsigned(data, 6, 2) == Some(16)
    ensures ReadUnsigned(data, 10, 2) == Some(113) && ReadUnsigned(data, 12, 2) == Some(n % 65536)
    ensures ReadUnsigned(data, 4, 2) == ReadUnsigned(data, 8, 2) == ReadUnsigned(data, 14, 2) == Some(65535)
  {
    hide LE, At, Header, ReadUnsigned, Pow256;
    HeaderParts(data, n);
    SmallExact(49);
    SmallExact(16);
    SmallExact(113);
    ReadUnsignedAt(data, 2, 49, 2);
    ReadUnsignedAt(data, 6, 16, 2);
    ReadUnsignedAt(data, 10, 113, 2);
    ReadUnsignedAt(data, 12, n, 2);
    SmallExact(65535);
    ReadUnsignedAt(data, 4, 65535, 2);
    ReadUnsignedAt(data, 8, 65535, 2);
    ReadUnsignedAt(data, 14, 65535, 2);
  }

  /** Every offset names its own part; the message arrives whole exactly when it is below 2^16 bytes. */
  lemma PrecompileResolves(key: Bytes, signature: Bytes, message: Bytes)
    requires |key| == 33 && |signature| == 64
    ensures Resolve(Data(key, signature, message)) == Some(Signed(key, signature, message[..|message| % 65536]))
    ensures Resolve(Data(key, signature, message)) == Some(Signed(key, signature, message)) <==> |message| < 65536
  {
    hide At, Header, Data, ReadUnsigned, Read, ReadByte;
    var data := Data(key, signature, message);
    BodyParts(key, signature, message);
    OffsetsRead(data, |message|);
    ReadByteAt(data, 0, 1);
    ReadAt(data, 16, key);
    ReadAt(data, 49, signature);
    AtPrefix(data, 113, message, |message| % 65536);
    ReadAt(data, 113, message[..|message| % 65536]);
    if |message| < 65536 {
      assert message[..|message| % 65536] == message;
    } else {
      assert |message[..|message| % 65536]| != |message|;
    }
  }
}
