/**
 Fields of a signed-authorization payload and their concatenation, shared by the Solana
 builders (`packages/core/src/hash.ts`) and the EVM builders (`packages/core/src/evm.ts`,
 `packages/evm/src/adapter.ts`).
 */
module Wire {
  import opened Bytes

  datatype Field =
    /** Bytes whose length the builder or its argument type enforces. */
    | Fixed(width: nat, bytes: Bytes)
    /** Bytes the builder concatenates without looking at their length. */
    | Loose(width: nat, bytes: Bytes)
    /** `u64le`, `u16le`, `u8le` (unsigned) and `i64le` (signed): truncates silently. */
    | Le(width: nat, signed: bool, n: int)
    /** `beUint` and `ube`: throws when the value does not fit. */
    | Be(width: nat, n: int)

  function U64(n: int): Field { Le(8, false, n) }
  function I64(n: int): Field { Le(8, true, n) }
  function U16(n: int): Field { Le(2, false, n) }
  function U8(n: int): Field { Le(1, false, n) }
  function Key(b: Bytes): Field { Fixed(32, b) }

  function Encode(f: Field): Bytes {
    match f
    case Fixed(_, b) => b
    case Loose(_, b) => b
    case Le(w, _, n) => LE(n, w)
    case Be(w, n) => BE(n, w)
  }

  /** The builder does not throw on this field. */
  predicate Accepted(f: Field) {
    match f
    case Fixed(w, b) => |b| == w
    case Be(w, n) => Fits(n, w)
    case _ => true
  }

  /** A field the builder does not check has its nominal width. */
  predicate Sized(f: Field) {
    f.Loose? ==> |f.bytes| == f.width
  }

  /** The integer survives truncation. */
  predicate InRange(f: Field) {
    f.Le? ==>
      if f.signed then -(Pow256(f.width) / 2) <= f.n < Pow256(f.width) / 2
      else 0 <= f.n < Pow256(f.width)
  }

  predicate SameType(f: Field, g: Field) {
    match f
    case Fixed(w, _) => g.Fixed? && g.width == w
    case Loose(w, _) => g.Loose? && g.width == w
    case Le(w, s, _) => g.Le? && g.width == w && g.signed == s
    case Be(w, _) => g.Be? && g.width == w
  }

  /** Equal, or integers that only differ by a multiple of the width's modulus. */
  predicate SameField(f: Field, g: Field) {
    SameType(f, g)
    && match f
       case Fixed(_, b) => g.bytes == b
       case Loose(_, b) => g.bytes == b
       case Le(w, _, n) => n % Pow256(w) == g.n % Pow256(w)
       case Be(_, n) => g.n == n
  }

  predicate AllAccepted(fs: seq<Field>) {
    forall i :: 0 <= i < |fs| ==> Accepted(fs[i])
  }

  predicate AllSized(fs: seq<Field>) {
    forall i :: 0 <= i < |fs| ==> Sized(fs[i])
  }

  predicate SizedFrom(fs: seq<Field>, i: nat) {
    forall k :: i <= k < |fs| ==> Sized(fs[k])
  }

  predicate AllInRange(fs: seq<Field>) {
    forall i :: 0 <= i < |fs| ==> InRange(fs[i])
  }

  predicate SameTypes(fs: seq<Field>, gs: seq<Field>) {
    |fs| == |gs| && forall i :: 0 <= i < |fs| ==> SameType(fs[i], gs[i])
  }

  predicate SameFields(fs: seq<Field>, gs: seq<Field>) {
    |fs| == |gs| && forall i :: 0 <= i < |fs| ==> SameField(fs[i], gs[i])
  }

  function Concat(fs: seq<Field>, i: nat := 0): Bytes
    requires i <= |fs|
    decreases |fs| - i
  {
    if i == |fs| then [] else Encode(fs[i]) + Concat(fs, i + 1)
  }

  function Size(fs: seq<Field>, i: nat := 0): nat
    requires i <= |fs|
    decreases |fs| - i
  {
    if i == |fs| then 0 else fs[i].width + Size(fs, i + 1)
  }

  lemma {:induction false} ConcatSize(fs: seq<Field>, i: nat)
    requires i <= |fs| && AllAccepted(fs) && SizedFrom(fs, i)
    ensures |Concat(fs, i)| == Size(fs, i)
    decreases |fs| - i
  {
    if i < |fs| {
      assert Accepted(fs[i]) && Sized(fs[i]);
      ConcatSize(fs, i + 1);
    }
  }

  lemma SizeOf3(fs: seq<Field>, i: nat)
    requires i + 3 <= |fs|
    ensures Size(fs, i) == fs[i].width + fs[i + 1].width + fs[i + 2].width + Size(fs, i + 3)
  {
    assert Size(fs, i + 1) == fs[i + 1].width + Size(fs, i + 2);
  }

  lemma AppendInjective(a: Bytes, b: Bytes, c: Bytes, d: Bytes)
    requires |a| == |c|
    ensures a + b == c + d <==> a == c && b == d
  {
    if a + b == c + d {
      assert (a + b)[..|a|] == a && (c + d)[..|a|] == c;
      assert (a + b)[|a|..] == b && (c + d)[|a|..] == d;
    }
  }

  lemma EncodeWidth(f: Field, g: Field)
    requires SameType(f, g) && Accepted(f) && Sized(f) && Accepted(g) && Sized(g)
    ensures |Encode(f)| == |Encode(g)|
  {
    hide BE, LE;
  }

  lemma FieldInjective(f: Field, g: Field)
    requires SameType(f, g) && Accepted(f) && Accepted(g)
    ensures Encode(f) == Encode(g) <==> SameField(f, g)
  {
    hide BE, LE, Pow256;
    match f {
      case Fixed(_, _) =>
      case Loose(_, _) =>
      case Le(w, _, n) => LEInjectiveModulo(n, g.n, w);
      case Be(w, n) =>
        if Encode(f) == Encode(g) {
          BERoundTrip(n, w);
          BERoundTrip(g.n, w);
        }
    }
  }

  /** Field lists of the same types concatenate to the same bytes exactly when every field agrees. */
  lemma {:induction false} ConcatInjective(fs: seq<Field>, gs: seq<Field>, i: nat)
    requires i <= |fs| && SameTypes(fs, gs)
    requires AllAccepted(fs) && SizedFrom(fs, i) && AllAccepted(gs) && SizedFrom(gs, i)
    ensures Concat(fs, i) == Concat(gs, i) <==> forall k :: i <= k < |fs| ==> SameField(fs[k], gs[k])
    decreases |fs| - i
  {
    hide Encode, Accepted, Sized, SameType, SameField;
    if i < |fs| {
      EncodeWidth(fs[i], gs[i]);
      FieldInjective(fs[i], gs[i]);
      AppendInjective(Encode(fs[i]), Concat(fs, i + 1), Encode(gs[i]), Concat(gs, i + 1));
      ConcatInjective(fs, gs, i + 1);
    }
  }

  lemma ConcatSame(fs: seq<Field>, gs: seq<Field>)
    requires SameTypes(fs, gs)
    requires AllAccepted(fs) && AllSized(fs) && AllAccepted(gs) && AllSized(gs)
    ensures Concat(fs) == Concat(gs) <==> SameFields(fs, gs)
  {
    hide Concat, AllAccepted, Sized, SameField, SameType;
    ConcatInjective(fs, gs, 0);
  }

  lemma SameFieldsSameTypes(fs: seq<Field>, gs: seq<Field>)
    requires SameFields(fs, gs)
    ensures SameTypes(fs, gs)
  {
    forall i | 0 <= i < |fs|
      ensures SameType(fs[i], gs[i])
    {
      assert SameField(fs[i], gs[i]);
    }
  }

  /** In range, agreeing up to truncation is agreeing. */
  lemma InRangeSame(f: Field, g: Field)
    requires SameField(f, g) && InRange(f) && InRange(g)
    ensures f == g
  {
    hide Pow256;
    if f.Le? {
      var p, d := Pow256(f.width), f.n / Pow256(f.width) - g.n / Pow256(f.width);
      assert f.n - g.n == p * d by {
        assert p * d == p * (f.n / p) - p * (g.n / p);
      }
      MultipleIsFar(p, d);
    }
  }

  // ---- Fields nobody measures ----

  /** The bytes of fields `i` to `j`. */
  function Span(fs: seq<Field>, i: nat, j: nat): Bytes
    requires i <= j <= |fs|
    decreases j - i
  {
    if i == j then [] else Encode(fs[i]) + Span(fs, i + 1, j)
  }

  lemma {:induction false} ConcatSpan(fs: seq<Field>, i: nat, j: nat)
    requires i <= j <= |fs|
    ensures Concat(fs, i) == Span(fs, i, j) + Concat(fs, j)
    decreases j - i
  {
    hide Encode;
    if i < j {
      ConcatSpan(fs, i + 1, j);
      Assoc(Encode(fs[i]), Span(fs, i + 1, j), Concat(fs, j));
    }
  }

  lemma SizeOfTypes(fs: seq<Field>, gs: seq<Field>, i: nat)
    requires i <= |fs| && SameTypes(fs, gs)
    ensures Size(fs, i) == Size(gs, i)
    decreases |fs| - i
  {
    if i < |fs| {
      assert SameType(fs[i], gs[i]);
      SizeOfTypes(fs, gs, i + 1);
    }
  }

  /** Sized fields in front of the rest are recovered one by one. */
  lemma {:induction false} SizedPrefix(fs: seq<Field>, gs: seq<Field>, k: nat, i: nat)
    requires k <= i <= |fs| && SameTypes(fs, gs) && AllAccepted(fs) && AllAccepted(gs)
    requires forall h :: k <= h < i ==> Sized(fs[h]) && Sized(gs[h])
    ensures Concat(fs, k) == Concat(gs, k)
       <==> Concat(fs, i) == Concat(gs, i) && forall h :: k <= h < i ==> SameField(fs[h], gs[h])
    decreases i - k
  {
    hide Encode, Accepted, Sized, SameType, SameField;
    if k < i {
      EncodeWidth(fs[k], gs[k]);
      FieldInjective(fs[k], gs[k]);
      AppendInjective(Encode(fs[k]), Concat(fs, k + 1), Encode(gs[k]), Concat(gs, k + 1));
      SizedPrefix(fs, gs, k + 1, i);
    }
  }

  /**
   Where only the fields from `i` to `j` may have any length, two payloads agree exactly when
   every other field does and the bytes from `i` to `j` do, however they are cut into fields.
   */
  lemma UnmeasuredBlock(fs: seq<Field>, gs: seq<Field>, i: nat, j: nat)
    requires i <= j <= |fs| && SameTypes(fs, gs) && AllAccepted(fs) && AllAccepted(gs)
    requires forall h :: 0 <= h < |fs| && !(i <= h < j) ==> Sized(fs[h]) && Sized(gs[h])
    ensures Concat(fs) == Concat(gs)
       <==> && Span(fs, i, j) == Span(gs, i, j)
            && forall h :: 0 <= h < |fs| && !(i <= h < j) ==> SameField(fs[h], gs[h])
  {
    hide Concat, Span, Accepted, Sized, SameType, SameField, Size;
    SizedPrefix(fs, gs, 0, i);
    ConcatSpan(fs, i, j);
    ConcatSpan(gs, i, j);
    ConcatSize(fs, j);
    ConcatSize(gs, j);
    SizeOfTypes(fs, gs, j);
    ConcatInjective(fs, gs, j);
    if Concat(fs, i) == Concat(gs, i) {
      AppendInjective(Span(fs, i, j), Concat(fs, j), Span(gs, i, j), Concat(gs, j));
    }
  }

  /** Just behind the last unmeasured field below `j`; 0 if there is none. */
  function LooseEnd(fs: seq<Field>, j: nat): (e: nat)
    requires j <= |fs|
    ensures e <= j && forall h :: e <= h < j ==> !fs[h].Loose?
  {
    if j == 0 || fs[j - 1].Loose? then j else LooseEnd(fs, j - 1)
  }

  /** The first unmeasured field from `i` on, or `e`. */
  function LooseStart(fs: seq<Field>, e: nat, i: nat := 0): (b: nat)
    requires i <= e <= |fs|
    ensures i <= b <= e && forall h :: i <= h < b ==> !fs[h].Loose?
    decreases e - i
  {
    if i == e || fs[i].Loose? then i else LooseStart(fs, e, i + 1)
  }

  lemma {:induction false} SameLooseEnd(fs: seq<Field>, gs: seq<Field>, j: nat)
    requires SameTypes(fs, gs) && j <= |fs|
    ensures LooseEnd(fs, j) == LooseEnd(gs, j)
  {
    if j > 0 {
      assert SameType(fs[j - 1], gs[j - 1]);
      SameLooseEnd(fs, gs, j - 1);
    }
  }

  lemma {:induction false} SameLooseStart(fs: seq<Field>, gs: seq<Field>, e: nat, i: nat)
    requires SameTypes(fs, gs) && i <= e <= |fs|
    ensures LooseStart(fs, e, i) == LooseStart(gs, e, i)
    decreases e - i
  {
    if i < e {
      assert SameType(fs[i], gs[i]);
      SameLooseStart(fs, gs, e, i + 1);
    }
  }

  /** Agreement on what is measured, and on the bytes from the first to the last field that is not. */
  ghost predicate SameUnmeasured(fs: seq<Field>, gs: seq<Field>) {
    && SameTypes(fs, gs)
    && var e := LooseEnd(fs, |fs|);
       var b := LooseStart(fs, e);
       && Span(fs, b, e) == Span(gs, b, e)
       && forall h :: 0 <= h < |fs| && !(b <= h < e) ==> SameField(fs[h], gs[h])
  }

  /** For all widths of the unmeasured fields: one concatenation exactly when that agrees. */
  lemma UnmeasuredFields(fs: seq<Field>, gs: seq<Field>)
    requires SameTypes(fs, gs) && AllAccepted(fs) && AllAccepted(gs)
    ensures Concat(fs) == Concat(gs) <==> SameUnmeasured(fs, gs)
  {
    hide Concat, Span, Accepted, SameType, SameField, LooseStart, LooseEnd;
    var e := LooseEnd(fs, |fs|);
    var b := LooseStart(fs, e);
    SameLooseEnd(fs, gs, |fs|);
    SameLooseStart(fs, gs, e, 0);
    UnmeasuredBlock(fs, gs, b, e);
  }

  /** No field but the `k`-th is unmeasured. */
  predicate OnlyLoose(fs: seq<Field>, k: nat) {
    k < |fs| && forall h :: 0 <= h < |fs| && h != k ==> !fs[h].Loose?
  }

  /** Then its width is known from the total, and no hypothesis on it is needed. */
  lemma OnlyLooseSame(fs: seq<Field>, gs: seq<Field>, k: nat)
    requires SameTypes(fs, gs) && AllAccepted(fs) && AllAccepted(gs) && OnlyLoose(fs, k)
    ensures Concat(fs) == Concat(gs) <==> SameFields(fs, gs)
  {
    hide Concat, Accepted, SameField, Encode;
    forall h | 0 <= h < |fs| && h != k
      ensures Sized(fs[h]) && Sized(gs[h])
    {
      assert SameType(fs[h], gs[h]);
    }
    UnmeasuredBlock(fs, gs, k, k + 1);
    FieldInjective(fs[k], gs[k]);
    assert Span(fs, k, k + 1) == Encode(fs[k]) + [] == Encode(fs[k]);
    assert Span(gs, k, k + 1) == Encode(gs[k]) + [] == Encode(gs[k]);
  }
}
