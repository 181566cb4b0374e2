/**
 Reading a payload back by position: slots of fixed width, one after the other. The readers of
 the Solana and the EVM preimages are written in these terms alone.
 */
module FieldReader {
  import opened Bytes
  import opened Wire

  datatype Slot = Raw(width: nat) | LittleUnsigned(width: nat) | LittleSigned(width: nat) | Big(width: nat)

  datatype Datum = Octets(bytes: Bytes) | Number(n: int)

  /** Two's complement. */
  function SignedValue(v: int, width: nat): int {
    if v < Pow256(width) / 2 then v else v - Pow256(width)
  }

  function Meaning(s: Slot, bs: Bytes): Datum {
    match s
    case Raw(_) => Octets(bs)
    case LittleUnsigned(_) => Number(ValueLE(bs))
    case LittleSigned(w) => Number(SignedValue(ValueLE(bs), w))
    case Big(_) => Number(Value(bs))
  }

  /** The data of the slots from the `i`-th on, read from `at`; they must end with the payload. */
  function Take(bs: Bytes, at: nat, slots: seq<Slot>, i: nat := 0): Option<seq<Datum>>
    requires i <= |slots|
    decreases |slots| - i
  {
    if i == |slots| then (if at == |bs| then Some([]) else None)
    else if at + slots[i].width > |bs| then None
    else
      var rest :- Take(bs, at + slots[i].width, slots, i + 1);
      Some([Meaning(slots[i], bs[at..at + slots[i].width])] + rest)
  }

  /** The `i`-th datum, as bytes or as a number. */
  function B(v: seq<Datum>, i: nat): Bytes {
    if i < |v| && v[i].Octets? then v[i].bytes else []
  }

  function N(v: seq<Datum>, i: nat): int {
    if i < |v| && v[i].Number? then v[i].n else 0
  }

  /** A literal read off the front of a payload. */
  predicate StartsWith(bs: Bytes, text: string) {
    |text| <= |bs| && forall i :: 0 <= i < |text| ==> bs[i] as char == text[i]
  }

  // ---- What the builders write is what is read ----

  function SlotOf(f: Field): Slot {
    match f
    case Fixed(w, _) => Raw(w)
    case Loose(w, _) => Raw(w)
    case Le(w, signed, _) => if signed then LittleSigned(w) else LittleUnsigned(w)
    case Be(w, _) => Big(w)
  }

  function DatumOf(f: Field): Datum {
    match f
    case Fixed(_, b) => Octets(b)
    case Loose(_, b) => Octets(b)
    case Le(_, _, n) => Number(n)
    case Be(_, n) => Number(n)
  }

  predicate Describes(slots: seq<Slot>, fs: seq<Field>) {
    |slots| == |fs| && forall i :: 0 <= i < |fs| ==> slots[i] == SlotOf(fs[i])
  }

  function Data(fs: seq<Field>): (v: seq<Datum>)
    ensures |v| == |fs|
  {
    seq(|fs|, i requires 0 <= i < |fs| => DatumOf(fs[i]))
  }

  lemma HalfOfPower(w: nat)
    ensures w > 0 ==> Pow256(w) % 2 == 0
  {
    if w > 0 {
      assert Pow256(w) == 256 * Pow256(w - 1);
    }
  }

  lemma SignedRead(n: int, w: nat)
    requires -(Pow256(w) / 2) <= n < Pow256(w) / 2
    ensures SignedValue(n % Pow256(w), w) == n
  {
    HalfOfPower(w);
    if n >= 0 {
      DivModUnique(n, Pow256(w), 0, n);
    } else {
      DivModUnique(n, Pow256(w), -1, n + Pow256(w));
    }
  }

  lemma FieldRead(f: Field)
    requires Accepted(f) && Sized(f) && InRange(f)
    ensures |Encode(f)| == f.width && Meaning(SlotOf(f), Encode(f)) == DatumOf(f)
  {
    hide BE, LE, Pow256, Value, ValueLE, SignedValue;
    match f {
      case Fixed(_, _) =>
      case Loose(_, _) =>
      case Le(w, signed, n) =>
        ValueOfLE(n, w);
        if signed {
          SignedRead(n, w);
        } else {
          DivModUnique(n, Pow256(w), 0, n);
        }
      case Be(w, n) => BERoundTrip(n, w);
    }
  }

  lemma SlotWidth(f: Field)
    ensures SlotOf(f).width == f.width
  {
  }

  lemma {:induction false} TakesBack(bs: Bytes, at: nat, slots: seq<Slot>, fs: seq<Field>, i: nat)
    requires i <= |fs| && Describes(slots, fs) && AllAccepted(fs) && AllSized(fs) && AllInRange(fs)
    requires At(bs, at, Concat(fs, i)) && at + |Concat(fs, i)| == |bs|
    ensures Take(bs, at, slots, i) == Some(Data(fs)[i..])
    decreases |fs| - i
  {
    hide Encode, Meaning, SlotOf, DatumOf, Accepted, Sized, InRange;
    if i < |fs| {
      var e := Encode(fs[i]);
      FieldRead(fs[i]);
      SlotWidth(fs[i]);
      AtSplit(bs, at, e, Concat(fs, i + 1));
      TakesBack(bs, at + |e|, slots, fs, i + 1);
      assert Data(fs)[i..] == [Data(fs)[i]] + Data(fs)[i + 1..];
    } else {
      assert Data(fs)[i..] == [];
    }
  }

  /** A header of `h` bytes, then the fields, to the end. */
  lemma TakesBody(header: Bytes, slots: seq<Slot>, fs: seq<Field>)
    requires Describes(slots, fs) && AllAccepted(fs) && AllSized(fs) && AllInRange(fs)
    ensures Take(header + Concat(fs), |header|, slots) == Some(Data(fs))
  {
    hide Take, Describes, Data, AllAccepted, AllSized, AllInRange, Concat;
    var bs := header + Concat(fs);
    AtFront(bs, []);
    assert bs + [] == bs;
    AtSplit(bs, 0, header, Concat(fs));
    TakesBack(bs, |header|, slots, fs, 0);
    assert Data(fs)[0..] == Data(fs);
  }
}
