/**
 The five calldata builders of `packages/evm/src/adapter.ts` that lay out their arguments
 by hand, each with its own offset arithmetic, against the generic coder.

 A selector is four bytes of a keccak hash and is a parameter. `pad32` left-pads a
 byte string that is too short and throws on one that is too long.
 */
module Calldata {
  import opened Bytes
  import opened Abi
  import opened AbiDecode
  import opened AbiLayout

  /** The passkey assertion every builder ends with. */
  datatype Assertion = Assertion(auth: Bytes, client: Bytes, r: Bytes, s: Bytes)

  datatype DeployV2 = DeployV2(
    salt: Bytes, x: Bytes, y: Bytes, rpIdHash: Bytes, maxFee: int, policy: int, deadline: int, fee: int)

  datatype DeployV3 = DeployV3(
    pidHash: Bytes, x: Bytes, y: Bytes, policy: int, deadline: int, networkFee: int)

  datatype DeployV4 = DeployV4(
    pidHash: Bytes, x: Bytes, y: Bytes, policy: int, maxTotalFee: int, deadline: int, networkFee: int)

  datatype ExecuteV3 = ExecuteV3(
    to: Bytes, value: int, data: Bytes, deadline: int, policy: int, networkFee: int)

  datatype ExecuteV4 = ExecuteV4(
    to: Bytes, value: int, data: Bytes, deadline: int, policy: int, maxTotalFee: int, networkFee: int)

  /** `constCoderCheck` (and `encBytes32` on `r` and `s`) pass. */
  predicate AssertionOk(p: Assertion) {
    |p.r| == 32 && |p.s| == 32 && p.auth != [] && p.client != []
  }

  /** `pad32("0x" + toHex(ube(v, w)))`. */
  function Padded(v: int, w: nat): Bytes {
    Low32(BE(v, w))
  }

  // ------------------------------------------------------------------
  // The builders, as written
  // ------------------------------------------------------------------

  function BuildDeployAndInitDataV2(sel: Bytes, a: DeployV2, p: Assertion): Option<Bytes> {
    if |a.salt| > 32 || |a.x| > 32 || |a.y| > 32 || |a.rpIdHash| > 32
       || !Fits(a.maxFee, 32) || !Fits(a.policy, 2) || !Fits(a.deadline, 8) || !Fits(a.fee, 32)
       || !AssertionOk(p)
    then None
    else
      var head := [
        Low32(a.salt), Low32(a.x), Low32(a.y), Low32(a.rpIdHash),
        Padded(a.maxFee, 32), Padded(a.policy, 2), Padded(a.deadline, 8), Padded(a.fee, 32)];
      var off0 := 12 * 32;
      var off1 := off0 + PaddedLen(|p.auth|);
      var tail := [
        Padded(off0, 32), Padded(off1, 32), p.r, p.s, EncodeBytes(p.auth), EncodeBytes(p.client)];
      Some(sel + (Flatten(head) + Flatten(tail)))
  }

  function BuildDeployAndInitDataV3(sel: Bytes, a: DeployV3, p: Assertion): Option<Bytes> {
    if |a.pidHash| > 32 || |a.x| > 32 || |a.y| > 32
       || !Fits(a.policy, 2) || !Fits(a.deadline, 8) || !Fits(a.networkFee, 32) || !AssertionOk(p)
    then None
    else
      var head := [
        Low32(a.pidHash), Low32(a.x), Low32(a.y),
        Padded(a.policy, 2), Padded(a.deadline, 8), Padded(a.networkFee, 32)];
      var off0 := 10 * 32;
      var off1 := off0 + PaddedLen(|p.auth|);
      var tail := [
        Padded(off0, 32), Padded(off1, 32), p.r, p.s, EncodeBytes(p.auth), EncodeBytes(p.client)];
      Some(sel + (Flatten(head) + Flatten(tail)))
  }

  function BuildDeployAndInitDataV4(sel: Bytes, a: DeployV4, p: Assertion): Option<Bytes> {
    if |a.pidHash| > 32 || |a.x| > 32 || |a.y| > 32
       || !Fits(a.policy, 2) || !Fits(a.maxTotalFee, 32) || !Fits(a.deadline, 8) || !Fits(a.networkFee, 32)
       || !AssertionOk(p)
    then None
    else
      var head := [
        Low32(a.pidHash), Low32(a.x), Low32(a.y), Padded(a.policy, 2),
        Padded(a.maxTotalFee, 32), Padded(a.deadline, 8), Padded(a.networkFee, 32)];
      var off0 := 11 * 32;
      var off1 := off0 + PaddedLen(|p.auth|);
      var tail := [
        Padded(off0, 32), Padded(off1, 32), p.r, p.s, EncodeBytes(p.auth), EncodeBytes(p.client)];
      Some(sel + (Flatten(head) + Flatten(tail)))
  }

  function BuildExecuteDataV3(sel: Bytes, a: ExecuteV3, p: Assertion): Option<Bytes> {
    if |a.to| != 20 || !Fits(a.value, 32) || !Fits(a.deadline, 8) || !Fits(a.policy, 2)
       || !Fits(a.networkFee, 32) || !AssertionOk(p)
    then None
    else
      var head := [Low32(a.to), Padded(a.value, 32)];
      var offData := 10 * 32;
      var offAuth := offData + PaddedLen(|a.data|);
      var offClient := offAuth + PaddedLen(|p.auth|);
      var tail := [
        Padded(offData, 32), Padded(a.deadline, 8), Padded(a.policy, 2), Padded(a.networkFee, 32),
        Padded(offAuth, 32), Padded(offClient, 32), p.r, p.s,
        EncodeBytes(a.data), EncodeBytes(p.auth), EncodeBytes(p.client)];
      Some(sel + (Flatten(head) + Flatten(tail)))
  }

  function BuildExecuteDataV4(sel: Bytes, a: ExecuteV4, p: Assertion): Option<Bytes> {
    if |a.to| != 20 || !Fits(a.value, 32) || !Fits(a.deadline, 8) || !Fits(a.policy, 2)
       || !Fits(a.maxTotalFee, 32) || !Fits(a.networkFee, 32) || !AssertionOk(p)
    then None
    else
      var head := [Low32(a.to), Padded(a.value, 32)];
      var offData := 11 * 32;
      var offAuth := offData + PaddedLen(|a.data|);
      var offClient := offAuth + PaddedLen(|p.auth|);
      var tail := [
        Padded(offData, 32), Padded(a.deadline, 8), Padded(a.policy, 2), Padded(a.maxTotalFee, 32),
        Padded(a.networkFee, 32), Padded(offAuth, 32), Padded(offClient, 32), p.r, p.s,
        EncodeBytes(a.data), EncodeBytes(p.auth), EncodeBytes(p.client)];
      Some(sel + (Flatten(head) + Flatten(tail)))
  }

  // ------------------------------------------------------------------
  // The argument lists their selectors declare
  // ------------------------------------------------------------------

  function AssertionArgs(p: Assertion): seq<AbiValue> {
    [BytesV(p.auth), BytesV(p.client), Bytes32V(p.r), Bytes32V(p.s)]
  }

  function DeployV2Args(a: DeployV2): seq<AbiValue> {
    [Bytes32V(Low32(a.salt)), Bytes32V(Low32(a.x)), Bytes32V(Low32(a.y)), Bytes32V(Low32(a.rpIdHash)),
     UintV(32, a.maxFee), UintV(2, a.policy), UintV(8, a.deadline), UintV(32, a.fee)]
  }

  function DeployV3Args(a: DeployV3): seq<AbiValue> {
    [Bytes32V(Low32(a.pidHash)), Bytes32V(Low32(a.x)), Bytes32V(Low32(a.y)),
     UintV(2, a.policy), UintV(8, a.deadline), UintV(32, a.networkFee)]
  }

  function DeployV4Args(a: DeployV4): seq<AbiValue> {
    [Bytes32V(Low32(a.pidHash)), Bytes32V(Low32(a.x)), Bytes32V(Low32(a.y)), UintV(2, a.policy),
     UintV(32, a.maxTotalFee), UintV(8, a.deadline), UintV(32, a.networkFee)]
  }

  function TargetArgs(to: Bytes, value: int): seq<AbiValue> {
    [AddressV(to), UintV(32, value)]
  }

  function ExecuteV3Args(a: ExecuteV3): seq<AbiValue> {
    [UintV(8, a.deadline), UintV(2, a.policy), UintV(32, a.networkFee)]
  }

  function ExecuteV4Args(a: ExecuteV4): seq<AbiValue> {
    [UintV(8, a.deadline), UintV(2, a.policy), UintV(32, a.maxTotalFee), UintV(32, a.networkFee)]
  }

  // ------------------------------------------------------------------
  // Taking an argument list apart
  // ------------------------------------------------------------------

  lemma FlattenCons(p: Bytes, ps: seq<Bytes>)
    ensures Flatten([p] + ps) == p + Flatten(ps)
  {
    assert ([p] + ps)[1..] == ps;
  }

  /** Encoding from position `j` of `vs` depends only on the values found there. */
  lemma {:induction false} Shift(vs: seq<AbiValue>, j: nat, rest: seq<AbiValue>, k: nat, off: nat)
    requires j <= |vs| && k <= |rest| && vs[j..] == rest[k..]
    ensures Heads(vs, j, off) == Heads(rest, k, off)
    ensures Tails(vs, j) == Tails(rest, k)
    ensures HeadSize(vs, j) == HeadSize(rest, k)
    decreases |vs| - j
  {
    hide Word, Tail, StaticHead, IsDynamic, HeadLen;
    assert |vs| - j == |rest| - k by {
      assert |vs[j..]| == |rest[k..]|;
    }
    if j < |vs| {
      assert vs[j] == vs[j..][0] == rest[k..][0] == rest[k];
      assert vs[j + 1..] == vs[j..][1..] == rest[k..][1..] == rest[k + 1..];
      if IsDynamic(rest[k]) {
        Shift(vs, j + 1, rest, k + 1, off + |Tail(rest[k])|);
      } else {
        Shift(vs, j + 1, rest, k + 1, off);
      }
    }
  }

  /** Scalars in front add their words to the head and nothing else. */
  lemma {:induction false} ScalarPrefix(ps: seq<AbiValue>, rest: seq<AbiValue>, i: nat, off: nat)
    requires i <= |ps| && forall k :: 0 <= k < |ps| ==> IsScalar(ps[k])
    ensures Heads(ps + rest, i, off) == ScalarWords(ps, i) + Heads(rest, 0, off)
    ensures Tails(ps + rest, i) == Tails(rest)
    ensures HeadSize(ps + rest, i) == 32 * (|ps| - i) + HeadSize(rest)
    decreases |ps| - i
  {
    hide EncodeStatic;
    if i == |ps| {
      Shift(ps + rest, i, rest, 0, off);
    } else {
      assert (ps + rest)[i] == ps[i];
      ScalarPrefix(ps, rest, i + 1, off);
      Assoc(EncodeStatic(ps[i]), ScalarWords(ps, i + 1), Heads(rest, 0, off));
    }
  }

  lemma BytesFirst(d: Bytes, rest: seq<AbiValue>, off: nat)
    ensures Heads([BytesV(d)] + rest, 0, off) == Word(off) + Heads(rest, 0, off + |EncodeBytes(d)|)
    ensures Tails([BytesV(d)] + rest) == EncodeBytes(d) + Tails(rest)
    ensures HeadSize([BytesV(d)] + rest) == 32 + HeadSize(rest)
  {
    hide Word, EncodeBytes;
    var vs := [BytesV(d)] + rest;
    Shift(vs, 1, rest, 0, off + |EncodeBytes(d)|);
    assert Tail(vs[0]) == EncodeBytes(d);
  }

  lemma AssertionLayout(p: Assertion, off: nat)
    requires AssertionOk(p)
    ensures Heads(AssertionArgs(p), 0, off) == Word(off) + (Word(off + |EncodeBytes(p.auth)|) + (p.r + p.s))
    ensures Tails(AssertionArgs(p)) == EncodeBytes(p.auth) + EncodeBytes(p.client)
    ensures HeadSize(AssertionArgs(p)) == 4 * 32
  {
    hide Word, EncodeBytes, Heads, Tails, HeadSize, ScalarWords;
    var rs := [Bytes32V(p.r), Bytes32V(p.s)];
    var cs := [BytesV(p.client)] + rs;
    var o1 := off + |EncodeBytes(p.auth)|;
    assert AssertionArgs(p) == [BytesV(p.auth)] + cs;
    BytesFirst(p.auth, cs, off);
    BytesFirst(p.client, rs, o1);
    TwoWords(rs, o1 + |EncodeBytes(p.client)|);
    assert EncodeStatic(rs[0]) == p.r && EncodeStatic(rs[1]) == p.s;
    assert EncodeBytes(p.client) + [] == EncodeBytes(p.client);
  }

  lemma TwoWords(vs: seq<AbiValue>, off: nat)
    requires |vs| == 2 && IsScalar(vs[0]) && IsScalar(vs[1])
    ensures Heads(vs, 0, off) == EncodeStatic(vs[0]) + EncodeStatic(vs[1])
    ensures Tails(vs) == [] && HeadSize(vs) == 64
  {
    hide EncodeStatic;
    ScalarsAsHeads(vs, 0, off);
    assert ScalarWords(vs, 1) == EncodeStatic(vs[1]) + ScalarWords(vs, 2);
  }

  lemma {:induction false} WordsOf(vs: seq<AbiValue>, words: seq<Bytes>, i: nat)
    requires i <= |vs| == |words| && forall k :: 0 <= k < |vs| ==> words[k] == EncodeStatic(vs[k])
    ensures Flatten(words[i..]) == ScalarWords(vs, i)
    decreases |vs| - i
  {
    hide EncodeStatic;
    if i < |vs| {
      assert words[i..] == [words[i]] + words[i + 1..];
      FlattenCons(words[i], words[i + 1..]);
      WordsOf(vs, words, i + 1);
    }
  }

  lemma OffsetPadding(off: nat)
    ensures Padded(off, 32) == Word(off)
  {
    hide BE;
    assert (Zeros(32) + BE(off, 32))[32..] == BE(off, 32);
  }

  /** Hex words for every value of `vs`, as the builders list them. */
  predicate Words(vs: seq<AbiValue>, words: seq<Bytes>) {
    |vs| == |words|
    && (forall k :: 0 <= k < |vs| ==> IsScalar(vs[k]))
    && (forall k :: 0 <= k < |vs| ==> words[k] == EncodeStatic(vs[k]))
  }

  lemma Flatten6(a: Bytes, b: Bytes, c: Bytes, d: Bytes, e: Bytes, f: Bytes)
    ensures Flatten([a, b, c, d, e, f]) == a + (b + (c + d)) + (e + f)
  {
    FlattenCons(f, []);
    FlattenCons(e, [f]);
    FlattenCons(d, [e, f]);
    FlattenCons(c, [d, e, f]);
    FlattenCons(b, [c, d, e, f]);
    FlattenCons(a, [b, c, d, e, f]);
    assert [e] + [f] == [e, f] && [d] + [e, f] == [d, e, f] && [c] + [d, e, f] == [c, d, e, f];
    assert [b] + [c, d, e, f] == [b, c, d, e, f] && [a] + [b, c, d, e, f] == [a, b, c, d, e, f];
    assert f + [] == f && [f] + [] == [f];
    Assoc(a, b + (c + d), e + f);
    Assoc(b, c + d, e + f);
    Assoc(c, d, e + f);
  }

  /** Scalars, then the assertion: offsets count the whole head. */
  lemma DeployLayout(vs: seq<AbiValue>, words: seq<Bytes>, p: Assertion, off0: nat, off1: nat)
    requires Words(vs, words) && AssertionOk(p)
    requires off0 == (|vs| + 4) * 32 && off1 == off0 + PaddedLen(|p.auth|)
    ensures EncodeSeq(vs + AssertionArgs(p))
         == Flatten(words)
            + Flatten([Padded(off0, 32), Padded(off1, 32), p.r, p.s, EncodeBytes(p.auth), EncodeBytes(p.client)])
  {
    hide Word, EncodeBytes, Heads, Tails, HeadSize, ScalarWords, EncodeStatic, Flatten, Padded;
    ScalarPrefix(vs, AssertionArgs(p), 0, off0);
    AssertionLayout(p, off0);
    WordsOf(vs, words, 0);
    assert words[0..] == words;
    OffsetPadding(off0);
    OffsetPadding(off1);
    var hs, ts := Word(off0) + (Word(off1) + (p.r + p.s)), EncodeBytes(p.auth) + EncodeBytes(p.client);
    Flatten6(Word(off0), Word(off1), p.r, p.s, EncodeBytes(p.auth), EncodeBytes(p.client));
    Assoc(Flatten(words), hs, ts);
  }

  lemma Encodables(vs: seq<AbiValue>, ws: seq<AbiValue>)
    ensures AllEncodable(vs + ws) <==> AllEncodable(vs) && AllEncodable(ws)
  {
    hide Encodable;
    if AllEncodable(vs + ws) {
      assert forall i :: 0 <= i < |vs| ==> (vs + ws)[i] == vs[i];
      assert forall i :: 0 <= i < |ws| ==> (vs + ws)[|vs| + i] == ws[i];
    }
  }

  lemma AssertionEncodable(p: Assertion)
    ensures AllEncodable(AssertionArgs(p)) <==> |p.r| == 32 && |p.s| == 32
  {
    var vs := AssertionArgs(p);
    assert vs[2] == Bytes32V(p.r) && vs[3] == Bytes32V(p.s);
  }

  /** `deployAndInit` V2: the hand layout is the generic encoding, on every input it accepts. */
  lemma DeployV2IsGeneric(sel: Bytes, a: DeployV2, p: Assertion)
    ensures var args := DeployV2Args(a) + AssertionArgs(p);
            BuildDeployAndInitDataV2(sel, a, p)
            == if |a.salt| <= 32 && |a.x| <= 32 && |a.y| <= 32 && |a.rpIdHash| <= 32
                  && p.auth != [] && p.client != [] && AllEncodable(args)
               then Some(sel + EncodeSeq(args)) else None
  {
    hide BE, Pow256, EncodeBytes, EncodeSeq, Flatten, Low32;
    var vs := DeployV2Args(a);
    Encodables(vs, AssertionArgs(p));
    AssertionEncodable(p);
    assert vs[4] == UintV(32, a.maxFee) && vs[5] == UintV(2, a.policy)
        && vs[6] == UintV(8, a.deadline) && vs[7] == UintV(32, a.fee);
    if BuildDeployAndInitDataV2(sel, a, p).Some? {
      var words := [
        Low32(a.salt), Low32(a.x), Low32(a.y), Low32(a.rpIdHash),
        Padded(a.maxFee, 32), Padded(a.policy, 2), Padded(a.deadline, 8), Padded(a.fee, 32)];
      DeployLayout(vs, words, p, 12 * 32, 12 * 32 + PaddedLen(|p.auth|));
    }
  }

  lemma DeployV3IsGeneric(sel: Bytes, a: DeployV3, p: Assertion)
    ensures var args := DeployV3Args(a) + AssertionArgs(p);
            BuildDeployAndInitDataV3(sel, a, p)
            == if |a.pidHash| <= 32 && |a.x| <= 32 && |a.y| <= 32
                  && p.auth != [] && p.client != [] && AllEncodable(args)
               then Some(sel + EncodeSeq(args)) else None
  {
    hide BE, Pow256, EncodeBytes, EncodeSeq, Flatten, Low32;
    var vs := DeployV3Args(a);
    Encodables(vs, AssertionArgs(p));
    AssertionEncodable(p);
    assert vs[3] == UintV(2, a.policy) && vs[4] == UintV(8, a.deadline) && vs[5] == UintV(32, a.networkFee);
    if BuildDeployAndInitDataV3(sel, a, p).Some? {
      var words := [
        Low32(a.pidHash), Low32(a.x), Low32(a.y),
        Padded(a.policy, 2), Padded(a.deadline, 8), Padded(a.networkFee, 32)];
      DeployLayout(vs, words, p, 10 * 32, 10 * 32 + PaddedLen(|p.auth|));
    }
  }

  lemma DeployV4IsGeneric(sel: Bytes, a: DeployV4, p: Assertion)
    ensures var args := DeployV4Args(a) + AssertionArgs(p);
            BuildDeployAndInitDataV4(sel, a, p)
            == if |a.pidHash| <= 32 && |a.x| <= 32 && |a.y| <= 32
                  && p.auth != [] && p.client != [] && AllEncodable(args)
               then Some(sel + EncodeSeq(args)) else None
  {
    hide BE, Pow256, EncodeBytes, EncodeSeq, Flatten, Low32;
    var vs := DeployV4Args(a);
    Encodables(vs, AssertionArgs(p));
    AssertionEncodable(p);
    assert vs[3] == UintV(2, a.policy) && vs[4] == UintV(32, a.maxTotalFee)
        && vs[5] == UintV(8, a.deadline) && vs[6] == UintV(32, a.networkFee);
    if BuildDeployAndInitDataV4(sel, a, p).Some? {
      var words := [
        Low32(a.pidHash), Low32(a.x), Low32(a.y), Padded(a.policy, 2),
        Padded(a.maxTotalFee, 32), Padded(a.deadline, 8), Padded(a.networkFee, 32)];
      DeployLayout(vs, words, p, 11 * 32, 11 * 32 + PaddedLen(|p.auth|));
    }
  }

  /** Target scalars, the call data, more scalars, then the assertion. */
  lemma ExecuteLayout(
    ts: seq<AbiValue>, tw: seq<Bytes>, data: Bytes, ms: seq<AbiValue>, mw: seq<Bytes>, p: Assertion,
    off0: nat, off1: nat, off2: nat)
    requires Words(ts, tw) && Words(ms, mw) && AssertionOk(p)
    requires off0 == (|ts| + |ms| + 5) * 32
    requires off1 == off0 + PaddedLen(|data|) && off2 == off1 + PaddedLen(|p.auth|)
    ensures EncodeSeq(ts + ([BytesV(data)] + (ms + AssertionArgs(p))))
         == Flatten(tw)
            + Flatten([Padded(off0, 32)] + mw + [Padded(off1, 32), Padded(off2, 32), p.r, p.s]
                      + [EncodeBytes(data), EncodeBytes(p.auth), EncodeBytes(p.client)])
  {
    hide Word, EncodeBytes, Heads, Tails, HeadSize, ScalarWords, EncodeStatic, Flatten, Padded;
    var tail := ms + AssertionArgs(p);
    ScalarPrefix(ts, [BytesV(data)] + tail, 0, off0);
    BytesFirst(data, tail, off0);
    ScalarPrefix(ms, AssertionArgs(p), 0, off1);
    AssertionLayout(p, off1);
    WordsOf(ts, tw, 0);
    WordsOf(ms, mw, 0);
    assert tw[0..] == tw && mw[0..] == mw;
    OffsetPadding(off0);
    OffsetPadding(off1);
    OffsetPadding(off2);
    var ed, ea, ec := EncodeBytes(data), EncodeBytes(p.auth), EncodeBytes(p.client);
    var hs, bs := Word(off1) + (Word(off2) + (p.r + p.s)), ed + (ea + ec);
    assert EncodeSeq(ts + ([BytesV(data)] + tail))
        == (Flatten(tw) + (Word(off0) + (Flatten(mw) + hs))) + bs;
    ExecuteFlatten(Word(off0), mw, Word(off1), Word(off2), p.r, p.s, ed, ea, ec);
    Assoc(Flatten(tw), Word(off0) + (Flatten(mw) + hs), bs);
  }

  lemma ExecuteFlatten(
    o0: Bytes, mw: seq<Bytes>, o1: Bytes, o2: Bytes, r: Bytes, s: Bytes, ed: Bytes, ea: Bytes, ec: Bytes)
    ensures Flatten([o0] + mw + [o1, o2, r, s] + [ed, ea, ec])
         == (o0 + (Flatten(mw) + (o1 + (o2 + (r + s))))) + (ed + (ea + ec))
  {
    var quad, tri := [o1, o2, r, s], [ed, ea, ec];
    FlattenAppend([o0] + mw + quad, tri);
    FlattenAppend([o0] + mw, quad);
    FlattenAppend([o0], mw);
    FlattenCons(o0, []);
    FlattenQuad(o1, o2, r, s);
    FlattenTri(ed, ea, ec);
    assert [o0] + [] == [o0] && o0 + [] == o0;
    Assoc(o0, Flatten(mw), o1 + (o2 + (r + s)));
  }

  lemma FlattenTri(a: Bytes, b: Bytes, c: Bytes)
    ensures Flatten([a, b, c]) == a + (b + c)
  {
    FlattenCons(c, []);
    FlattenCons(b, [c]);
    FlattenCons(a, [b, c]);
    assert [c] + [] == [c] && [b] + [c] == [b, c] && [a] + [b, c] == [a, b, c] && c + [] == c;
  }

  lemma FlattenQuad(a: Bytes, b: Bytes, c: Bytes, d: Bytes)
    ensures Flatten([a, b, c, d]) == a + (b + (c + d))
  {
    FlattenTri(b, c, d);
    FlattenCons(a, [b, c, d]);
    assert [a] + [b, c, d] == [a, b, c, d];
  }

  lemma TargetEncodable(to: Bytes, value: int)
    ensures AllEncodable(TargetArgs(to, value)) <==> |to| == 20 && Fits(value, 32)
  {
    var vs := TargetArgs(to, value);
    assert vs[0] == AddressV(to) && vs[1] == UintV(32, value);
  }

  function ExecuteV3List(a: ExecuteV3, p: Assertion): seq<AbiValue> {
    TargetArgs(a.to, a.value) + ([BytesV(a.data)] + (ExecuteV3Args(a) + AssertionArgs(p)))
  }

  function ExecuteV4List(a: ExecuteV4, p: Assertion): seq<AbiValue> {
    TargetArgs(a.to, a.value) + ([BytesV(a.data)] + (ExecuteV4Args(a) + AssertionArgs(p)))
  }

  lemma ExecuteEncodable(to: Bytes, value: int, data: Bytes, ms: seq<AbiValue>, p: Assertion)
    ensures AllEncodable(TargetArgs(to, value) + ([BytesV(data)] + (ms + AssertionArgs(p))))
       <==> |to| == 20 && Fits(value, 32) && AllEncodable(ms) && |p.r| == 32 && |p.s| == 32
  {
    hide Encodable, AllEncodable, Pow256;
    Encodables(TargetArgs(to, value), [BytesV(data)] + (ms + AssertionArgs(p)));
    Encodables([BytesV(data)], ms + AssertionArgs(p));
    Encodables(ms, AssertionArgs(p));
    TargetEncodable(to, value);
    AssertionEncodable(p);
    OneBytesEncodable(data);
  }

  lemma OneBytesEncodable(data: Bytes)
    ensures AllEncodable([BytesV(data)])
  {
  }

  lemma ExecuteV3IsGeneric(sel: Bytes, a: ExecuteV3, p: Assertion)
    ensures BuildExecuteDataV3(sel, a, p)
         == if p.auth != [] && p.client != [] && AllEncodable(ExecuteV3List(a, p))
            then Some(sel + EncodeSeq(ExecuteV3List(a, p))) else None
  {
    hide BE, Pow256, EncodeBytes, EncodeSeq, Flatten, Low32;
    var ms := ExecuteV3Args(a);
    ExecuteEncodable(a.to, a.value, a.data, ms, p);
    assert ms[0] == UintV(8, a.deadline) && ms[1] == UintV(2, a.policy) && ms[2] == UintV(32, a.networkFee);
    if BuildExecuteDataV3(sel, a, p).Some? {
      var tw := [Low32(a.to), Padded(a.value, 32)];
      var mw := [Padded(a.deadline, 8), Padded(a.policy, 2), Padded(a.networkFee, 32)];
      var off0 := 10 * 32;
      var off1 := off0 + PaddedLen(|a.data|);
      var off2 := off1 + PaddedLen(|p.auth|);
      ExecuteLayout(TargetArgs(a.to, a.value), tw, a.data, ms, mw, p, off0, off1, off2);
      assert [Padded(off0, 32)] + mw + [Padded(off1, 32), Padded(off2, 32), p.r, p.s]
             + [EncodeBytes(a.data), EncodeBytes(p.auth), EncodeBytes(p.client)]
          == [Padded(off0, 32), mw[0], mw[1], mw[2], Padded(off1, 32), Padded(off2, 32), p.r, p.s,
              EncodeBytes(a.data), EncodeBytes(p.auth), EncodeBytes(p.client)];
    }
  }

  lemma ExecuteV4IsGeneric(sel: Bytes, a: ExecuteV4, p: Assertion)
    ensures BuildExecuteDataV4(sel, a, p)
         == if p.auth != [] && p.client != [] && AllEncodable(ExecuteV4List(a, p))
            then Some(sel + EncodeSeq(ExecuteV4List(a, p))) else None
  {
    hide BE, Pow256, EncodeBytes, EncodeSeq, Flatten, Low32;
    var ms := ExecuteV4Args(a);
    ExecuteEncodable(a.to, a.value, a.data, ms, p);
    assert ms[0] == UintV(8, a.deadline) && ms[1] == UintV(2, a.policy)
        && ms[2] == UintV(32, a.maxTotalFee) && ms[3] == UintV(32, a.networkFee);
    if BuildExecuteDataV4(sel, a, p).Some? {
      var tw := [Low32(a.to), Padded(a.value, 32)];
      var mw := [
        Padded(a.deadline, 8), Padded(a.policy, 2), Padded(a.maxTotalFee, 32), Padded(a.networkFee, 32)];
      var off0 := 11 * 32;
      var off1 := off0 + PaddedLen(|a.data|);
      var off2 := off1 + PaddedLen(|p.auth|);
      ExecuteLayout(TargetArgs(a.to, a.value), tw, a.data, ms, mw, p, off0, off1, off2);
      assert [Padded(off0, 32)] + mw + [Padded(off1, 32), Padded(off2, 32), p.r, p.s]
             + [EncodeBytes(a.data), EncodeBytes(p.auth), EncodeBytes(p.client)]
          == [Padded(off0, 32), mw[0], mw[1], mw[2], mw[3], Padded(off1, 32), Padded(off2, 32), p.r, p.s,
              EncodeBytes(a.data), EncodeBytes(p.auth), EncodeBytes(p.client)];
    }
  }

  // ------------------------------------------------------------------
  // Lengths
  // ------------------------------------------------------------------

  lemma DeployLength(vs: seq<AbiValue>, p: Assertion)
    requires AssertionOk(p) && forall k :: 0 <= k < |vs| ==> IsScalar(vs[k])
    ensures |EncodeSeq(vs + AssertionArgs(p))|
         == (|vs| + 4) * 32 + PaddedLen(|p.auth|) + PaddedLen(|p.client|)
  {
    hide Word, EncodeBytes, Heads, Tails, HeadSize, IsScalar;
    ScalarPrefix(vs, AssertionArgs(p), 0, 0);
    AssertionLayout(p, 0);
  }

  lemma ExecuteLength(ts: seq<AbiValue>, data: Bytes, ms: seq<AbiValue>, p: Assertion)
    requires AssertionOk(p)
    requires (forall k :: 0 <= k < |ts| ==> IsScalar(ts[k])) && forall k :: 0 <= k < |ms| ==> IsScalar(ms[k])
    ensures |EncodeSeq(ts + ([BytesV(data)] + (ms + AssertionArgs(p))))|
         == (|ts| + |ms| + 5) * 32 + PaddedLen(|data|) + PaddedLen(|p.auth|) + PaddedLen(|p.client|)
  {
    hide Word, EncodeBytes, Heads, Tails, HeadSize, IsScalar;
    var tail := ms + AssertionArgs(p);
    ScalarPrefix(ts, [BytesV(data)] + tail, 0, 0);
    BytesFirst(data, tail, 0);
    ScalarPrefix(ms, AssertionArgs(p), 0, 0);
    AssertionLayout(p, 0);
  }

  /**
   Calldata length depends on the `bytes` arguments alone, so a draft with zero fees has
   the final calldata's length (`relayExecute` prices the draft and sends the final).
   */
  lemma DraftHasFinalLength(sel: Bytes, draft: ExecuteV4, final: ExecuteV4, p: Assertion)
    requires BuildExecuteDataV4(sel, draft, p).Some? && BuildExecuteDataV4(sel, final, p).Some?
    requires |draft.data| == |final.data|
    ensures |BuildExecuteDataV4(sel, draft, p).value| == |BuildExecuteDataV4(sel, final, p).value|
         == |sel| + 11 * 32 + PaddedLen(|final.data|) + PaddedLen(|p.auth|) + PaddedLen(|p.client|)
  {
    hide EncodeSeq, AllEncodable, PaddedLen, Low32, EncodeBytes;
    ExecuteV4IsGeneric(sel, draft, p);
    ExecuteV4IsGeneric(sel, final, p);
    ExecuteLength(TargetArgs(draft.to, draft.value), draft.data, ExecuteV4Args(draft), p);
    ExecuteLength(TargetArgs(final.to, final.value), final.data, ExecuteV4Args(final), p);
  }

  /** Deploy calldata of each version has a length fixed by the assertion alone. */
  lemma DeployLengths(sel: Bytes, a2: DeployV2, a3: DeployV3, a4: DeployV4, p: Assertion)
    ensures var n := PaddedLen(|p.auth|) + PaddedLen(|p.client|);
            var c2, c3, c4 := BuildDeployAndInitDataV2(sel, a2, p), BuildDeployAndInitDataV3(sel, a3, p),
                              BuildDeployAndInitDataV4(sel, a4, p);
            && (c2.Some? ==> |c2.value| == |sel| + 12 * 32 + n)
            && (c3.Some? ==> |c3.value| == |sel| + 10 * 32 + n)
            && (c4.Some? ==> |c4.value| == |sel| + 11 * 32 + n)
  {
    hide EncodeSeq, AllEncodable, PaddedLen, Low32, EncodeBytes, Flatten, Padded, Pow256;
    DeployV2IsGeneric(sel, a2, p);
    DeployV3IsGeneric(sel, a3, p);
    DeployV4IsGeneric(sel, a4, p);
    if AssertionOk(p) {
      DeployLength(DeployV2Args(a2), p);
      DeployLength(DeployV3Args(a3), p);
      DeployLength(DeployV4Args(a4), p);
    }
  }

  lemma SmallEnough(n: nat, m: nat, k: nat)
    requires n < Pow256(4) && m < Pow256(4) && k < Pow256(4)
    ensures 11 * 32 + PaddedLen(n) + PaddedLen(m) + PaddedLen(k) < Pow256(32)
  {
    Pow256Monotone(6, 32);
    assert Pow256(6) == 256 * Pow256(5) == 256 * 256 * Pow256(4);
  }
}
